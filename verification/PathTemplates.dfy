/**
 Fixed Graph path templates: the template validator, filling placeholders with safe
 parameters, and what that does to the path as section 3.3 and the algorithm of section
 5.2.4 of RFC 3986 read it.
 */
module PathTemplates {
  import opened Common

  // ---------------------------------------------------------------------------------
  // Splitting and joining at slashes
  // ---------------------------------------------------------------------------------

  /** Python's `split("/")`. */
  function Split(s: string): (parts: seq<string>)
    ensures |parts| > 0
  {
    if s == "" then [""]
    else
      var rest := Split(s[1..]);
      if s[0] == '/' then [""] + rest else [[s[0]] + rest[0]] + rest[1..]
  }

  /** A path from its segments, each behind a slash. */
  function Render(segments: seq<string>): string {
    if segments == [] then "" else "/" + segments[0] + Render(segments[1..])
  }

  predicate NoSlash(s: string) {
    '/' !in s
  }

  ghost predicate Segments(segments: seq<string>) {
    forall i | 0 <= i < |segments| :: NoSlash(segments[i])
  }

  lemma {:induction false} SplitSegment(s: string, rest: string)
    requires NoSlash(s) && (rest == "" || rest[0] == '/')
    ensures Split(s + rest) == [s] + Split(rest)[1..]
  {
    if s == "" {
      assert s + rest == rest;
      if rest != "" {
        assert Split(rest) == [""] + Split(rest[1..]);
      }
    } else {
      assert (s + rest)[0] == s[0] && (s + rest)[1..] == s[1..] + rest;
      SplitSegment(s[1..], rest);
      assert s == [s[0]] + s[1..];
    }
  }

  lemma SplitSlash(s: string)
    ensures Split("/" + s) == [""] + Split(s)
  {
    assert ("/" + s)[1..] == s;
  }

  lemma RenderStarts(segments: seq<string>)
    requires segments != []
    ensures Render(segments) == "/" + (segments[0] + Render(segments[1..]))
    ensures Render(segments[1..]) == "" || Render(segments[1..])[0] == '/'
  {
  }

  /** Splitting a rendered path gives back its segments. */
  lemma {:induction false} SplitRender(segments: seq<string>)
    requires Segments(segments)
    ensures Split(Render(segments)) == [""] + segments
  {
    if segments != [] {
      var rest := Render(segments[1..]);
      RenderStarts(segments);
      SplitSlash(segments[0] + rest);
      SplitSegment(segments[0], rest);
      SplitRender(segments[1..]);
      assert ([""] + segments[1..])[1..] == segments[1..];
      assert segments == [segments[0]] + segments[1..];
    }
  }

  lemma {:induction false} SplitSegments(s: string)
    ensures Segments(Split(s))
  {
    if s != "" {
      SplitSegments(s[1..]);
    }
  }

  lemma {:induction false} RenderSplit(s: string)
    ensures s == Split(s)[0] + Render(Split(s)[1..])
  {
    if s != "" {
      RenderSplit(s[1..]);
      assert s == [s[0]] + s[1..];
      var rest := Split(s[1..]);
      assert rest == [rest[0]] + rest[1..];
    }
  }

  // ---------------------------------------------------------------------------------
  // The template validator
  // ---------------------------------------------------------------------------------

  predicate Contains(s: string, t: string) {
    StartsWith(s, t) || (s != "" && Contains(s[1..], t))
  }

  predicate StartsWith(s: string, t: string) {
    |t| <= |s| && s[..|t|] == t
  }

  function LowerChar(c: char): char {
    if 'A' <= c <= 'Z' then (c as int - 'A' as int + 'a' as int) as char else c
  }

  function Lower(s: string): string {
    seq(|s|, i requires 0 <= i < |s| => LowerChar(s[i]))
  }

  predicate Forbidden(c: char) {
    c in "\r\n\0?#\\%"
  }

  predicate NameChar(c: char) {
    'a' <= c <= 'z' || '0' <= c <= '9' || c == '_'
  }

  /** The name inside a segment of the form `{name}`. */
  function PlaceholderName(segment: string): Option<string> {
    if |segment| >= 3 && segment[0] == '{' && segment[|segment| - 1] == '}'
      && 'a' <= segment[1] <= 'z' && forall i | 1 <= i < |segment| - 1 :: NameChar(segment[i])
    then Some(segment[1..|segment| - 1])
    else None
  }

  predicate GoodSegment(segment: string, allowed: set<string>) {
    && segment != "" && segment != "." && segment != ".."
    && ('{' in segment || '}' in segment ==>
          PlaceholderName(segment).Some? && PlaceholderName(segment).value in allowed)
  }

  /** `_validate_fixed_graph_path`. */
  predicate ValidTemplate(value: string, allowed: set<string>) {
    && StartsWith(value, "/") && !Contains(value, "://")
    && !Contains(Lower(value), "/beta/") && !StartsWith(Lower(value), "/beta")
    && (forall i | 0 <= i < |value| :: !Forbidden(value[i]))
    && forall i | 1 <= i < |Split(value)| :: GoodSegment(Split(value)[i], allowed)
  }

  function TemplateSegments(value: string): seq<string> {
    Split(value)[1..]
  }

  // ---------------------------------------------------------------------------------
  // What the validator accepts, segment by segment
  // ---------------------------------------------------------------------------------

  predicate IsName(name: string) {
    name != "" && 'a' <= name[0] <= 'z' && forall c | c in name :: 'a' <= c <= 'z' || '0' <= c <= '9' || c == '_'
  }

  /** A segment of a fixed path: a literal, or an allowed name in braces. */
  ghost predicate FixedSegment(segment: string, allowed: set<string>) {
    && segment != "" && segment != "." && segment != ".." && '/' !in segment
    && (forall c | c in segment :: c != '?' && c != '#' && c != '\\' && c != '%' && c != '\r' && c != '\n' && c != '\0')
    && (('{' !in segment && '}' !in segment) || exists name :: name in allowed && IsName(name) && segment == "{" + name + "}")
  }

  /** Fixed segments, none of them naming another API version. */
  ghost predicate IsFixedPath(value: string, segments: seq<string>, allowed: set<string>) {
    && segments != [] && value == Render(segments)
    && (forall i | 0 <= i < |segments| :: FixedSegment(segments[i], allowed))
    && !StartsWithBeta(segments[0])
    && forall i | 0 <= i < |segments| - 1 :: |segments[i]| == 4 ==> !StartsWithBeta(segments[i])
  }

  /** The letters of "beta", each in either case. */
  ghost predicate StartsWithBeta(s: string) {
    |s| >= 4 && s[0] in {'b', 'B'} && s[1] in {'e', 'E'} && s[2] in {'t', 'T'} && s[3] in {'a', 'A'}
  }

  lemma LowersTo(c: char, d: char)
    requires 'a' <= d <= 'z'
    ensures LowerChar(c) == d <==> c == d || c as int + 32 == d as int
  {
  }

  lemma BetaInAnyCase(s: string)
    ensures StartsWith(Lower(s), "beta") <==> StartsWithBeta(s)
    ensures Lower(s) == "beta" <==> |s| == 4 && StartsWithBeta(s)
  {
    if |s| >= 4 {
      LowersTo(s[0], 'b');
      LowersTo(s[1], 'e');
      LowersTo(s[2], 't');
      LowersTo(s[3], 'a');
      var four := Lower(s)[..4];
      assert four == "beta" <==> four[0] == 'b' && four[1] == 'e' && four[2] == 't' && four[3] == 'a';
      assert |s| == 4 ==> four == Lower(s);
    }
  }

  lemma PlaceholderExactly(segment: string, name: string)
    ensures PlaceholderName(segment) == Some(name) <==> IsName(name) && segment == "{" + name + "}"
  {
    if PlaceholderName(segment) == Some(name) {
      assert segment == "{" + name + "}";
      forall c | c in name ensures NameChar(c) {
        var i :| 0 <= i < |name| && name[i] == c;
        assert NameChar(segment[i + 1]);
      }
    }
    if IsName(name) && segment == "{" + name + "}" {
      forall i | 1 <= i < |segment| - 1 ensures NameChar(segment[i]) {
        assert segment[i] == name[i - 1] && name[i - 1] in name;
      }
      assert segment[1] == name[0];
      assert segment[1..|segment| - 1] == name;
    }
  }

  lemma AllowedName(segment: string, allowed: set<string>)
    ensures (PlaceholderName(segment).Some? && PlaceholderName(segment).value in allowed) <==>
      exists name :: name in allowed && IsName(name) && segment == "{" + name + "}"
  {
    forall name ensures PlaceholderName(segment) == Some(name) <==> IsName(name) && segment == "{" + name + "}" {
      PlaceholderExactly(segment, name);
    }
    if PlaceholderName(segment).Some? && PlaceholderName(segment).value in allowed {
      var name := PlaceholderName(segment).value;
      assert PlaceholderName(segment) == Some(name);
    }
  }

  lemma GoodSegmentExactly(segment: string, allowed: set<string>)
    requires NoSlash(segment)
    ensures (GoodSegment(segment, allowed) && forall c | c in segment :: !Forbidden(c)) <==> FixedSegment(segment, allowed)
  {
    AllowedName(segment, allowed);
  }

  lemma {:induction false} RenderAvoids(segments: seq<string>)
    ensures (forall c | c in Render(segments) :: !Forbidden(c)) <==>
      forall i | 0 <= i < |segments| :: forall c | c in segments[i] :: !Forbidden(c)
  {
    if segments != [] {
      var rest := Render(segments[1..]);
      RenderAvoids(segments[1..]);
      RenderStarts(segments);
      assert forall c :: c in Render(segments) <==> c == '/' || c in segments[0] || c in rest;
      assert forall i | 0 <= i < |segments| - 1 :: segments[1..][i] == segments[i + 1];
      assert forall i | 0 < i < |segments| :: segments[i] == segments[1..][i - 1];
    }
  }

  /** What starts with a slash is not found inside a segment. */
  lemma {:induction false} NotInsideSegment(segment: string, rest: string, t: string)
    requires NoSlash(segment) && t != "" && t[0] == '/'
    ensures Contains(segment + rest, t) <==> Contains(rest, t)
  {
    if segment == "" {
      assert segment + rest == rest;
    } else {
      assert (segment + rest)[1..] == segment[1..] + rest && (segment + rest)[0] == segment[0];
      PrefixCharacters(segment + rest, t);
      NotInsideSegment(segment[1..], rest, t);
    }
  }

  lemma StartsStep(s: string, t: string)
    requires s != "" && t != ""
    ensures StartsWith(s, t) <==> s[0] == t[0] && StartsWith(s[1..], t[1..])
  {
    assert t == [t[0]] + t[1..];
    if |t| <= |s| {
      assert s[..|t|] == [s[0]] + s[1..][..|t| - 1];
    }
  }

  lemma {:induction false} WholeSegment(segment: string, rest: string, word: string)
    requires NoSlash(segment) && NoSlash(word) && (rest == "" || rest[0] == '/')
    ensures StartsWith(segment + rest, word + "/") <==> segment == word && rest != ""
  {
    if segment + rest != "" {
      StartsStep(segment + rest, word + "/");
      if segment != "" && word != "" {
        assert (segment + rest)[1..] == segment[1..] + rest && (word + "/")[1..] == word[1..] + "/";
        WholeSegment(segment[1..], rest, word[1..]);
        assert segment == [segment[0]] + segment[1..] && word == [word[0]] + word[1..];
      } else if segment == "" && word == "" {
        assert (word + "/")[1..] == "";
      }
    }
  }

  lemma {:induction false} WordBetweenSlashes(segments: seq<string>, word: string)
    requires Segments(segments) && NoSlash(word)
    ensures Contains(Render(segments), "/" + word + "/") <==> NamesBefore(segments, word)
  {
    if segments != [] {
      var rest, t := Render(segments[1..]), "/" + word + "/";
      RenderStarts(segments);
      assert ("/" + (segments[0] + rest))[1..] == segments[0] + rest && t == "/" + (word + "/") && t[1..] == word + "/";
      StartsStep("/" + (segments[0] + rest), t);
      WholeSegment(segments[0], rest, word);
      NotInsideSegment(segments[0], rest, t);
      WordBetweenSlashes(segments[1..], word);
      assert rest != "" <==> |segments| > 1;
      assert forall i | 0 < i < |segments| :: segments[i] == segments[1..][i - 1];
    }
  }

  lemma {:induction false} NoDoubleSlash(segments: seq<string>)
    requires Segments(segments) && forall i | 0 <= i < |segments| :: segments[i] != ""
    ensures !Contains(Render(segments), "//")
  {
    if segments != [] {
      var rest := Render(segments[1..]);
      RenderStarts(segments);
      PrefixCharacters("/" + (segments[0] + rest), "//");
      assert ("/" + (segments[0] + rest))[1] == segments[0][0];
      assert ("/" + (segments[0] + rest))[1..] == segments[0] + rest;
      NotInsideSegment(segments[0], rest, "//");
      NoDoubleSlash(segments[1..]);
    }
  }

  lemma {:induction false} SchemeNeedsDoubleSlash(s: string)
    ensures Contains(s, "://") ==> Contains(s, "//")
  {
    if s != "" {
      SchemeNeedsDoubleSlash(s[1..]);
      if StartsWith(s, "://") {
        assert s[1..][..2] == s[..3][1..];
      }
    }
  }

  function Lowered(segments: seq<string>): seq<string> {
    seq(|segments|, i requires 0 <= i < |segments| => Lower(segments[i]))
  }

  lemma {:induction false} LowerRender(segments: seq<string>)
    ensures Lower(Render(segments)) == Render(Lowered(segments))
  {
    if segments != [] {
      LowerRender(segments[1..]);
      assert Lowered(segments)[1..] == Lowered(segments[1..]);
      assert Lower("/" + segments[0] + Render(segments[1..])) == "/" + Lower(segments[0]) + Lower(Render(segments[1..]));
    }
  }

  lemma {:induction false} FirstWord(segment: string, rest: string, word: string)
    requires NoSlash(word) && (rest == "" || rest[0] == '/')
    ensures StartsWith(segment + rest, word) <==> StartsWith(segment, word)
  {
    if word != "" && segment + rest != "" {
      StartsStep(segment + rest, word);
      if segment != "" {
        StartsStep(segment, word);
        assert (segment + rest)[1..] == segment[1..] + rest;
        FirstWord(segment[1..], rest, word[1..]);
      }
    }
  }

  lemma LoweredSegments(segments: seq<string>)
    requires Segments(segments)
    ensures Segments(Lowered(segments))
  {
    forall i | 0 <= i < |segments| ensures NoSlash(Lower(segments[i])) {
      assert NoSlash(segments[i]);
    }
  }

  ghost predicate NamesBefore(segments: seq<string>, word: string) {
    exists i :: 0 <= i < |segments| - 1 && segments[i] == word
  }

  lemma LoweredWordInside(segments: seq<string>, word: string)
    requires Segments(segments) && NoSlash(word)
    ensures Contains(Lower(Render(segments)), "/" + word + "/") <==> NamesBefore(Lowered(segments), word)
  {
    LowerRender(segments);
    LoweredSegments(segments);
    WordBetweenSlashes(Lowered(segments), word);
  }

  lemma LoweredNames(segments: seq<string>, word: string)
    ensures NamesBefore(Lowered(segments), word) <==> exists i :: 0 <= i < |segments| - 1 && Lower(segments[i]) == word
  {
    var lowered := Lowered(segments);
    assert forall i | 0 <= i < |segments| :: lowered[i] == Lower(segments[i]);
  }

  /** No other version further on in the path. */
  lemma VersionInside(segments: seq<string>, word: string, between: string)
    requires Segments(segments) && NoSlash(word) && between == "/" + word + "/"
    ensures Contains(Lower(Render(segments)), between) <==> exists i :: 0 <= i < |segments| - 1 && Lower(segments[i]) == word
  {
    LoweredWordInside(segments, word);
    LoweredNames(segments, word);
  }

  /** Nor at its start. */
  lemma VersionFirst(segments: seq<string>, word: string, behind: string)
    requires segments != [] && NoSlash(word) && behind == "/" + word
    ensures StartsWith(Lower(Render(segments)), behind) <==> StartsWith(Lower(segments[0]), word)
  {
    LowerRender(segments);
    var lowered := Lowered(segments);
    var path := lowered[0] + Render(lowered[1..]);
    RenderStarts(lowered);
    StartsStep("/" + path, behind);
    assert ("/" + path)[1..] == path && behind[1..] == word;
    FirstWord(lowered[0], Render(lowered[1..]), word);
  }

  lemma NoScheme(segments: seq<string>)
    requires Segments(segments) && forall i | 0 <= i < |segments| :: segments[i] != ""
    ensures !Contains(Render(segments), "://")
  {
    NoDoubleSlash(segments);
    SchemeNeedsDoubleSlash(Render(segments));
  }

  /**
   The validator accepts exactly the fixed paths: text that is a slash before each of one
   or more segments, each of them fixed, none naming another API version.
   */
  lemma ValidTemplateExactly(value: string, allowed: set<string>)
    ensures ValidTemplate(value, allowed) <==> exists segments :: IsFixedPath(value, segments, allowed)
  {
    if ValidTemplate(value, allowed) {
      SplitSegments(value);
      NotEmpty(value, allowed);
      TemplateIsRendered(value, allowed);
      AcceptsExactly(value, TemplateSegments(value), allowed);
    }
    if segments :| IsFixedPath(value, segments, allowed) {
      forall i | 0 <= i < |segments| ensures NoSlash(segments[i]) {
        assert FixedSegment(segments[i], allowed);
      }
      AcceptsExactly(value, segments, allowed);
    }
  }

  /** The checks on single characters and on the segments of a split path. */
  lemma SegmentsExactly(value: string, segments: seq<string>, allowed: set<string>)
    requires value == Render(segments) && Segments(segments)
    ensures
      ((forall i | 0 <= i < |value| :: !Forbidden(value[i]))
       && forall i | 1 <= i < |Split(value)| :: GoodSegment(Split(value)[i], allowed))
      <==> forall i | 0 <= i < |segments| :: FixedSegment(segments[i], allowed)
  {
    SplitRender(segments);
    RenderAvoids(segments);
    assert (forall i | 0 <= i < |value| :: !Forbidden(value[i])) <==> forall c | c in value :: !Forbidden(c);
    forall i | 0 <= i < |segments|
      ensures Split(value)[i + 1] == segments[i]
      ensures (GoodSegment(segments[i], allowed) && forall c | c in segments[i] :: !Forbidden(c)) <==>
        FixedSegment(segments[i], allowed)
    {
      GoodSegmentExactly(segments[i], allowed);
    }
    assert forall i | 1 <= i < |Split(value)| :: Split(value)[i] == segments[i - 1];
  }

  /** The checks on schemes and versions. */
  lemma VersionsExactly(value: string, segments: seq<string>)
    requires segments != [] && value == Render(segments) && Segments(segments)
    requires forall i | 0 <= i < |segments| :: segments[i] != ""
    ensures StartsWith(value, "/") && !Contains(value, "://")
    ensures (!Contains(Lower(value), "/beta/") && !StartsWith(Lower(value), "/beta")) <==>
      (!StartsWithBeta(segments[0]) && forall i | 0 <= i < |segments| - 1 :: |segments[i]| == 4 ==> !StartsWithBeta(segments[i]))
  {
    forall i | 0 <= i < |segments|
      ensures StartsWith(Lower(segments[i]), "beta") <==> StartsWithBeta(segments[i])
      ensures Lower(segments[i]) == "beta" <==> |segments[i]| == 4 && StartsWithBeta(segments[i])
    {
      BetaInAnyCase(segments[i]);
    }
    RenderStarts(segments);
    NoScheme(segments);
    VersionInside(segments, "beta", "/beta/");
    VersionFirst(segments, "beta", "/beta");
  }

  lemma AcceptsExactly(value: string, segments: seq<string>, allowed: set<string>)
    requires segments != [] && value == Render(segments) && Segments(segments)
    ensures ValidTemplate(value, allowed) <==> IsFixedPath(value, segments, allowed)
  {
    SegmentsExactly(value, segments, allowed);
    if forall i | 0 <= i < |segments| :: FixedSegment(segments[i], allowed) {
      VersionsExactly(value, segments);
    }
  }

  // ---------------------------------------------------------------------------------
  // Filling
  // ---------------------------------------------------------------------------------

  predicate AlphaNumeric(c: char) {
    'A' <= c <= 'Z' || 'a' <= c <= 'z' || '0' <= c <= '9'
  }

  /** The unreserved characters of section 2.3 of RFC 3986. */
  predicate Unreserved(c: char) {
    AlphaNumeric(c) || c in "._~-"
  }

  /** The safe path-parameter pattern: 1 to 128 unreserved characters, the first alphanumeric. */
  predicate SafeParameter(s: string) {
    1 <= |s| <= 128 && AlphaNumeric(s[0]) && forall i | 0 <= i < |s| :: Unreserved(s[i])
  }

  /** Which parameter values pass: letters and digits, with dots, dashes, underscores and tildes after the first. */
  lemma SafeParameterExactly(s: string)
    ensures SafeParameter(s) <==>
      && 0 < |s| <= 128 && s[0] != '.' && s[0] != '-' && s[0] != '_' && s[0] != '~'
      && forall c | c in s :: c == '.' || c == '-' || c == '_' || c == '~'
                              || '0' <= c <= '9' || 'A' <= c <= 'Z' || 'a' <= c <= 'z'
  {
    assert SafeParameter(s) ==> forall c | c in s :: Unreserved(c);
    assert 0 < |s| ==> s[0] in s;
    assert forall i | 0 <= i < |s| :: s[i] in s;
  }

  /** Every placeholder of the template has a safe value. */
  predicate Fits(segments: seq<string>, params: map<string, string>) {
    forall i | 0 <= i < |segments| && PlaceholderName(segments[i]).Some? ::
      && PlaceholderName(segments[i]).value in params
      && SafeParameter(params[PlaceholderName(segments[i]).value])
  }

  function FillSegments(segments: seq<string>, params: map<string, string>): (filled: seq<string>)
    requires Fits(segments, params)
    ensures |filled| == |segments|
  {
    seq(|segments|, i requires 0 <= i < |segments| =>
      if PlaceholderName(segments[i]).Some? then params[PlaceholderName(segments[i]).value] else segments[i])
  }

  function Fill(value: string, params: map<string, string>): string
    requires Fits(TemplateSegments(value), params)
  {
    Render(FillSegments(TemplateSegments(value), params))
  }

  /** A segment that dot-segment removal leaves alone. */
  predicate Plain(segment: string) {
    segment != "" && segment != "." && segment != ".." && NoSlash(segment)
  }

  lemma FilledSegmentsArePlain(value: string, allowed: set<string>, params: map<string, string>)
    requires ValidTemplate(value, allowed) && Fits(TemplateSegments(value), params)
    ensures forall i | 0 <= i < |TemplateSegments(value)| :: Plain(FillSegments(TemplateSegments(value), params)[i])
  {
    SplitSegments(value);
    var segments := TemplateSegments(value);
    forall i | 0 <= i < |segments| ensures Plain(FillSegments(segments, params)[i]) {
      assert segments[i] == Split(value)[i + 1] && GoodSegment(Split(value)[i + 1], allowed);
      if PlaceholderName(segments[i]).Some? {
        var p := params[PlaceholderName(segments[i]).value];
        assert forall k | 0 <= k < |p| :: Unreserved(p[k]) && p[k] != '/';
        assert p[0] != '.';
      }
    }
  }

  /** A template is its segments: rendering the split template gives it back. */
  lemma TemplateIsRendered(value: string, allowed: set<string>)
    requires ValidTemplate(value, allowed)
    ensures Render(TemplateSegments(value)) == value
  {
    RenderSplit(value);
    assert value[..1] == "/";
    assert Split(value)[0] == "";
  }

  /**
   Filling keeps the number of segments and every literal segment, and splitting the
   result gives each parameter back in the place of its placeholder.
   */
  lemma FillKeepsStructure(value: string, allowed: set<string>, params: map<string, string>)
    requires ValidTemplate(value, allowed) && Fits(TemplateSegments(value), params)
    ensures
      var template, result := TemplateSegments(value), TemplateSegments(Fill(value, params));
      && |result| == |template|
      && forall i | 0 <= i < |template| ::
           result[i] == if PlaceholderName(template[i]).Some?
                        then params[PlaceholderName(template[i]).value] else template[i]
  {
    FilledSegmentsArePlain(value, allowed, params);
    SplitRender(FillSegments(TemplateSegments(value), params));
  }

  /** Different parameters give different paths. */
  lemma FillIsInjective(value: string, allowed: set<string>, params: map<string, string>, other: map<string, string>)
    requires ValidTemplate(value, allowed)
    requires Fits(TemplateSegments(value), params) && Fits(TemplateSegments(value), other)
    ensures Fill(value, params) == Fill(value, other) <==>
      forall i | 0 <= i < |TemplateSegments(value)| && PlaceholderName(TemplateSegments(value)[i]).Some? ::
        params[PlaceholderName(TemplateSegments(value)[i]).value] == other[PlaceholderName(TemplateSegments(value)[i]).value]
  {
    FillKeepsStructure(value, allowed, params);
    FillKeepsStructure(value, allowed, other);
    var template := TemplateSegments(value);
    if forall i | 0 <= i < |template| && PlaceholderName(template[i]).Some? ::
      params[PlaceholderName(template[i]).value] == other[PlaceholderName(template[i]).value]
    {
      assert FillSegments(template, params) == FillSegments(template, other);
    }
  }

  predicate EndsWith(s: string, t: string) {
    |t| <= |s| && s[|s| - |t|..] == t
  }

  lemma {:induction false} RenderLast(segments: seq<string>)
    requires segments != []
    ensures Render(segments) == Render(segments[..|segments| - 1]) + "/" + segments[|segments| - 1]
  {
    if |segments| > 1 {
      RenderLast(segments[1..]);
      assert segments[1..][..|segments| - 2] == segments[..|segments| - 1][1..];
    }
  }

  lemma LastSlashIsLate(x: string, a: string, y: string, b: string)
    requires x + ("/" + a) == y + ("/" + b) && NoSlash(b)
    ensures |x| <= |y|
  {
    SlashAt(x, a);
    SlashOrBehind(y, b, |x|);
  }

  lemma SlashOrBehind(y: string, b: string, i: nat)
    requires i < |y + ("/" + b)|
    ensures i > |y| ==> (y + ("/" + b))[i] in b
  {
    assert forall j | 0 <= j < |b| :: (y + ("/" + b))[|y| + 1 + j] == b[j];
  }

  lemma SlashAt(x: string, a: string)
    ensures (x + ("/" + a))[|x|] == '/'
  {
  }

  lemma LastSegmentIsUnique(x: string, a: string, y: string, b: string)
    requires x + ("/" + a) == y + ("/" + b) && NoSlash(a) && NoSlash(b)
    ensures a == b
  {
    LastSlashIsLate(x, a, y, b);
    LastSlashIsLate(y, b, x, a);
    assert a == (x + ("/" + a))[|x| + 1..];
    assert b == (y + ("/" + b))[|y| + 1..];
  }

  const REF := "$ref"

  lemma EndsInSegmentExactly(before: string, last: string, segment: string)
    requires NoSlash(last) && NoSlash(segment)
    ensures EndsWith(before + ("/" + last), "/" + segment) <==> last == segment
  {
    var path, tail := before + ("/" + last), "/" + segment;
    if EndsWith(path, tail) {
      var head := path[..|path| - |tail|];
      assert path == head + tail;
      LastSegmentIsUnique(before, last, head, segment);
    }
    if last == segment {
      assert path[|path| - |tail|..] == tail;
    }
  }

  /** A path ends in `/$ref` exactly when its last segment is `$ref`. */
  lemma EndsInRefExactly(segments: seq<string>)
    requires segments != [] && Segments(segments)
    ensures EndsWith(Render(segments), "/" + REF) <==> segments[|segments| - 1] == REF
  {
    var last := segments[|segments| - 1];
    assert NoSlash(last);
    EndsInLast(segments, Render(segments), last);
  }

  lemma RefHasNoSlash()
    ensures NoSlash(REF)
  {
  }

  lemma EndsInLast(segments: seq<string>, path: string, last: string)
    requires segments != [] && last == segments[|segments| - 1] && NoSlash(last) && path == Render(segments)
    ensures EndsWith(path, "/" + REF) <==> last == REF
  {
    RenderLast(segments);
    RefHasNoSlash();
    var before := Render(segments[..|segments| - 1]);
    assert before + "/" + last == before + ("/" + last);
    EndsInSegmentExactly(before, last, REF);
  }

  /** A literal trailing `/$ref` survives filling, and filling never creates one. */
  lemma FillKeepsTrailingRef(value: string, allowed: set<string>, params: map<string, string>)
    requires ValidTemplate(value, allowed) && Fits(TemplateSegments(value), params)
    ensures EndsWith(Fill(value, params), "/" + REF) <==> EndsWith(value, "/" + REF)
  {
    var template := TemplateSegments(value);
    var filled := FillSegments(template, params);
    FilledSegmentsArePlain(value, allowed, params);
    TemplateIsRendered(value, allowed);
    SplitSegments(value);
    assert template != [] by { NotEmpty(value, allowed); }
    EndsInRefExactly(template);
    EndsInRefExactly(filled);
    LastIsRef(template, params);
  }

  lemma NotEmpty(value: string, allowed: set<string>)
    requires ValidTemplate(value, allowed)
    ensures TemplateSegments(value) != []
  {
    TemplateIsRendered(value, allowed);
  }

  lemma LastIsRef(template: seq<string>, params: map<string, string>)
    requires template != [] && Fits(template, params)
    ensures FillSegments(template, params)[|template| - 1] == REF <==> template[|template| - 1] == REF
  {
    var last := template[|template| - 1];
    assert PlaceholderName(last).Some? ==> SafeParameter(params[PlaceholderName(last).value]);
  }

  // ---------------------------------------------------------------------------------
  // Dot segments
  // ---------------------------------------------------------------------------------

  /** Drops everything from the last slash on. */
  function WithoutLastSegment(output: string): string {
    if output == "" then ""
    else if output[|output| - 1] == '/' then output[..|output| - 1]
    else WithoutLastSegment(output[..|output| - 1])
  }

  /** Length of the first path segment, with its leading slash if it has one. */
  function FirstSegment(input: string): (n: nat)
    requires input != ""
    ensures 0 < n <= |input|
  {
    if |input| == 1 || input[1] == '/' then 1 else 1 + FirstSegment(input[1..])
  }

  /** One step of the algorithm of section 5.2.4 of RFC 3986, on its two buffers. */
  function DotStep(input: string, output: string): (next: (string, string))
    requires input != ""
    ensures |next.0| < |input|
  {
    if StartsWith(input, "../") then (input[3..], output)                          // A
    else if StartsWith(input, "./") then (input[2..], output)
    else if StartsWith(input, "/./") then (input[2..], output)                     // B
    else if input == "/." then ("/", output)
    else if StartsWith(input, "/../") then (input[3..], WithoutLastSegment(output))  // C
    else if input == "/.." then ("/", WithoutLastSegment(output))
    else if input == "." || input == ".." then ("", output)                        // D
    else (input[FirstSegment(input)..], output + input[..FirstSegment(input)])     // E
  }

  function RemoveDotSegments(input: string, output: string): string
    decreases |input|
  {
    if input == "" then output
    else RemoveDotSegments(DotStep(input, output).0, DotStep(input, output).1)
  }

  lemma {:induction false} FirstSegmentLength(s: string, rest: string)
    requires s != "" && NoSlash(s[1..]) && (rest == "" || rest[0] == '/')
    ensures FirstSegment(s + rest) == |s|
  {
    if |s| == 1 {
      assert rest != "" ==> (s + rest)[1] == '/';
    } else {
      assert (s + rest)[1] == s[1..][0] && (s + rest)[1..] == s[1..] + rest;
      assert s[1..][1..] == s[2..];
      assert forall c | c in s[2..] :: c in s[1..];
      FirstSegmentLength(s[1..], rest);
    }
  }

  lemma PrefixCharacters(s: string, t: string)
    ensures StartsWith(s, t) ==> forall k | 0 <= k < |t| :: s[k] == t[k]
  {
    assert StartsWith(s, t) ==> forall k | 0 <= k < |t| :: s[..|t|][k] == t[k];
  }

  lemma NotADotSegment(segment: string, rest: string)
    requires Plain(segment) && (rest == "" || rest[0] == '/')
    ensures
      var input := "/" + segment + rest;
      && !StartsWith(input, "/./") && input != "/." && !StartsWith(input, "/../") && input != "/.."
      && !StartsWith(input, "../") && !StartsWith(input, "./") && input != "." && input != ".."
  {
    var input := "/" + segment + rest;
    PrefixCharacters(input, "/./");
    PrefixCharacters(input, "/../");
    PrefixCharacters(input, "../");
    PrefixCharacters(input, "./");
    assert input[0] == '/' && input[1] == segment[0];
    if segment[0] == '.' {
      assert segment == "." || |segment| > 1;
      assert input[2] == segment[1] && segment[1] != '/';
      if segment[1] == '.' {
        assert segment == ".." || |segment| > 2;
        assert input[3] == segment[2] && segment[2] != '/';
      }
    }
  }

  /** No rule but the last applies to a path whose first segment is plain. */
  lemma PlainSegmentMoves(segment: string, rest: string, output: string)
    requires Plain(segment) && (rest == "" || rest[0] == '/')
    ensures DotStep("/" + segment + rest, output) == (rest, output + ("/" + segment))
  {
    var input := "/" + segment + rest;
    NotADotSegment(segment, rest);
    assert ("/" + segment)[1..] == segment;
    FirstSegmentLength("/" + segment, rest);
    var n := |segment| + 1;
    assert input[n..] == rest && input[..n] == "/" + segment;
  }

  lemma PlainHeadMoves(segment: string, rest: string, output: string)
    requires Plain(segment) && (rest == "" || rest[0] == '/')
    ensures RemoveDotSegments("/" + segment + rest, output) == RemoveDotSegments(rest, output + ("/" + segment))
  {
    PlainSegmentMoves(segment, rest, output);
  }

  lemma Regroup(a: string, b: string, c: string)
    ensures (a + b) + c == a + (b + c) && a + "" == a
  {
  }

  lemma {:induction false} PlainPathsAreFixed(segments: seq<string>, output: string)
    requires forall i | 0 <= i < |segments| :: Plain(segments[i])
    ensures RemoveDotSegments(Render(segments), output) == output + Render(segments)
    decreases |segments|
  {
    if segments == [] {
      Regroup(output, "", "");
    } else {
      var head, rest := "/" + segments[0], Render(segments[1..]);
      RenderStarts(segments);
      PlainHeadMoves(segments[0], rest, output);
      PlainPathsAreFixed(segments[1..], output + head);
      Regroup(output, head, rest);
    }
  }

  /** A filled template has no dot segments to remove. */
  lemma FilledPathIsNormal(value: string, allowed: set<string>, params: map<string, string>)
    requires ValidTemplate(value, allowed) && Fits(TemplateSegments(value), params)
    ensures RemoveDotSegments(Fill(value, params), "") == Fill(value, params)
  {
    FilledSegmentsArePlain(value, allowed, params);
    PlainPathsAreFixed(FillSegments(TemplateSegments(value), params), "");
  }

  // ---------------------------------------------------------------------------------
  // Contracts with an explicit effect
  // ---------------------------------------------------------------------------------

  datatype Effect =
    | Read | CreateObject | UpdateProperties | StateTransition
    | RelationshipAdd | RelationshipRemove | InvokeAction | ObjectDelete

  datatype Method = Get | Post | Patch | Delete

  datatype Tier = T0 | T1 | T2 | T3 | T4

  /** The schema of an input field: a string, with format "uuid" or some pattern. */
  datatype FieldSchema = FieldSchema(isString: bool, isUuid: bool, hasSafePattern: bool)

  datatype EffectContract = EffectContract(
    effect: Effect, verb: Method, endpoint: string, fields: map<string, FieldSchema>, tier: Tier)

  function AllowedMethods(effect: Effect): set<Method> {
    match effect
    case Read => {Get}
    case CreateObject => {Post}
    case UpdateProperties => {Patch}
    case StateTransition => {Post, Patch}
    case RelationshipAdd => {Post}
    case RelationshipRemove => {Delete}
    case InvokeAction => {Post}
    case ObjectDelete => {}
  }

  /** The field behind a placeholder segment accepts only path-safe text. */
  predicate SafeField(fields: map<string, FieldSchema>, segment: string) {
    PlaceholderName(segment).Some? ==>
      var name := PlaceholderName(segment).value;
      name in fields && fields[name].isString && (fields[name].isUuid || fields[name].hasSafePattern)
  }

  /**
   The part of the contract validator that concerns effect, method, endpoint and tier. No
   read passes, because reads must be T0 and candidates T2 or T3.
   */
  method ValidateEffect(c: EffectContract, allowed: set<string>) returns (accepted: bool)
    ensures accepted <==>
      && ValidTemplate(c.endpoint, allowed)
      && (forall i | 0 <= i < |TemplateSegments(c.endpoint)| :: SafeField(c.fields, TemplateSegments(c.endpoint)[i]))
      && (c.effect, c.verb) in {(CreateObject, Post), (UpdateProperties, Patch), (StateTransition, Post), (StateTransition, Patch),
                                (RelationshipAdd, Post), (RelationshipRemove, Delete), (InvokeAction, Post)}
      && c.tier in {T2, T3}
      && (c.verb == Delete ==> EndsWith(c.endpoint, "/" + REF))
    ensures accepted ==> forall name | name !in c.fields || !c.fields[name].isString
                                       || !(c.fields[name].isUuid || c.fields[name].hasSafePattern) ::
      "{" + name + "}" !in TemplateSegments(c.endpoint) || !IsName(name)
  {
    if !ValidTemplate(c.endpoint, allowed) || c.effect == ObjectDelete {
      return false;
    }
    var segments := TemplateSegments(c.endpoint);
    for i := 0 to |segments|
      invariant forall j | 0 <= j < i :: SafeField(c.fields, segments[j])
    {
      var placeholder := PlaceholderName(segments[i]);
      if placeholder.Some? {
        if placeholder.value !in c.fields || !c.fields[placeholder.value].isString {
          return false;
        }
        if !c.fields[placeholder.value].isUuid && !c.fields[placeholder.value].hasSafePattern {
          return false;
        }
      }
    }
    if c.verb !in AllowedMethods(c.effect) {
      return false;
    }
    if c.effect == Read && c.tier != T0 {
      return false;
    }
    if c.effect == RelationshipRemove {
      if !EndsWith(c.endpoint, "/" + REF) {
        return false;
      }
    } else if c.verb == Delete {
      return false;
    }
    return c.tier == T2 || c.tier == T3;
  }

  predicate HexDigit(c: char) {
    '0' <= c <= '9' || 'a' <= c <= 'f' || 'A' <= c <= 'F'
  }

  /** The text of a UUID: 36 hexadecimal digits and dashes, the first a digit. */
  predicate UuidText(s: string) {
    |s| == 36 && forall i | 0 <= i < 36 :: if i in {8, 13, 18, 23} then s[i] == '-' else HexDigit(s[i])
  }

  /** What an input field lets through. */
  predicate Admits(schema: FieldSchema, value: string) {
    schema.isString && (schema.isUuid ==> UuidText(value)) && (schema.hasSafePattern ==> SafeParameter(value))
  }

  lemma UuidIsSafe(s: string)
    requires UuidText(s)
    ensures SafeParameter(s)
  {
    assert HexDigit(s[0]);
  }

  /**
   Whatever values the input schema of an accepted contract lets through, the request path
   has the contract's literal segments, no dot segments, and, when the request is a DELETE,
   ends in `/$ref`: it removes a reference, never an object.
   */
  lemma AcceptedContractsStayOnTheirPath(c: EffectContract, allowed: set<string>, params: map<string, string>)
    requires ValidTemplate(c.endpoint, allowed)
    requires forall i | 0 <= i < |TemplateSegments(c.endpoint)| :: SafeField(c.fields, TemplateSegments(c.endpoint)[i])
    requires c.verb == Delete ==> EndsWith(c.endpoint, "/" + REF)
    requires forall name | name in c.fields :: name in params && Admits(c.fields[name], params[name])
    ensures Fits(TemplateSegments(c.endpoint), params)
    ensures RemoveDotSegments(Fill(c.endpoint, params), "") == Fill(c.endpoint, params)
    ensures c.verb == Delete ==> EndsWith(Fill(c.endpoint, params), "/" + REF)
  {
    var segments := TemplateSegments(c.endpoint);
    forall i | 0 <= i < |segments| && PlaceholderName(segments[i]).Some?
      ensures PlaceholderName(segments[i]).value in params && SafeParameter(params[PlaceholderName(segments[i]).value])
    {
      var name := PlaceholderName(segments[i]).value;
      assert SafeField(c.fields, segments[i]);
      if c.fields[name].isUuid {
        UuidIsSafe(params[name]);
      }
    }
    FilledPathIsNormal(c.endpoint, allowed, params);
    FillKeepsTrailingRef(c.endpoint, allowed, params);
  }
}
