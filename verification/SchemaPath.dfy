/** Endpoint patterns and concrete paths: splitting, parsing, printing, matching.
    Characters stand for bytes. */
module SchemaPath {
  import opened Wrappers

  const MAX_DEPTH := 64
  const MAX_VALUE := 256

  /** One level of a pattern; a placeholder carries its name. */
  datatype Segment = Segment(literal: string, param: bool)

  /** A level with the placeholder name erased. */
  datatype Key = Lit(text: string) | Any

  type Pattern = seq<Key>

  /** The first position of `c`, or the length of `s`. */
  function IndexOf(s: string, c: char): (i: nat)
    ensures i <= |s| && (i < |s| ==> s[i] == c)
    ensures forall k :: 0 <= k < i ==> s[k] != c
  {
    if s == "" || s[0] == c then 0 else
      var i := IndexOf(s[1..], c);
      assert forall k :: 0 < k < i + 1 ==> s[k] == s[1..][k - 1];
      i + 1
  }

  ghost predicate Free(s: string, c: char) {
    forall i :: 0 <= i < |s| ==> s[i] != c
  }

  /** The parts between slashes; always at least one. */
  function Split(s: string): (parts: seq<string>)
    ensures parts != []
  {
    var i := IndexOf(s, '/');
    if i == |s| then [s] else [s[..i]] + Split(s[i + 1..])
  }

  function Join(parts: seq<string>): string {
    if parts == [] then "" else if |parts| == 1 then parts[0] else parts[0] + "/" + Join(parts[1..])
  }

  lemma {:induction false} JoinSplit(s: string)
    ensures Join(Split(s)) == s
    ensures forall i :: 0 <= i < |Split(s)| ==> Free(Split(s)[i], '/')
    decreases |s|
  {
    var i := IndexOf(s, '/');
    if i < |s| {
      JoinSplit(s[i + 1..]);
      assert Split(s)[1..] == Split(s[i + 1..]);
      assert s == s[..i] + "/" + s[i + 1..];
    }
  }

  lemma {:induction false} SplitJoin(parts: seq<string>)
    requires parts != [] && forall i :: 0 <= i < |parts| ==> Free(parts[i], '/')
    ensures Split(Join(parts)) == parts
    decreases |parts|
  {
    var s, i := Join(parts), IndexOf(Join(parts), '/');
    if |parts| == 1 {
      assert parts == [parts[0]];
    } else {
      SplitJoin(parts[1..]);
      SplitHead(parts[0], Join(parts[1..]));
      assert parts == [parts[0]] + parts[1..];
    }
  }

  lemma {:induction false} SplitHead(head: string, tail: string)
    requires Free(head, '/')
    ensures Split(head + "/" + tail) == [head] + Split(tail)
  {
    FirstSlash(head, tail);
    var s := head + "/" + tail;
    assert s[..|head|] == head && s[|head| + 1..] == tail;
  }

  lemma {:induction false} FirstSlash(head: string, tail: string)
    requires Free(head, '/')
    ensures IndexOf(head + "/" + tail, '/') == |head|
  {
    var s := head + "/" + tail;
    assert s[|head|] == '/' && forall k :: 0 <= k < |head| ==> s[k] == head[k];
  }

  predicate IdentifierChar(c: char, first: bool) {
    'a' <= c <= 'z' || 'A' <= c <= 'Z' || c == '_' || (!first && '0' <= c <= '9')
  }

  predicate Identifier(s: string) {
    s != "" && forall i :: 0 <= i < |s| ==> IdentifierChar(s[i], i == 0)
  }

  /** The scanning loop over the bytes. */
  method ValidIdentifier(s: string) returns (ok: bool)
    ensures ok <==> Identifier(s)
  {
    if s == "" {
      return false;
    }
    for i := 0 to |s|
      invariant forall k :: 0 <= k < i ==> IdentifierChar(s[k], k == 0)
    {
      var c := s[i];
      if 'a' <= c <= 'z' || 'A' <= c <= 'Z' || c == '_' {
      } else if '0' <= c <= '9' {
        if i == 0 {
          return false;
        }
      } else {
        return false;
      }
    }
    ok := true;
  }

  lemma {:induction false} IdentifierIsClean(s: string)
    requires Identifier(s)
    ensures Free(s, '/') && Free(s, '%') && Free(s, '+') && Free(s, '#')
  {
  }

  function ParseSegment(raw: string): Option<Segment> {
    if raw == "" then None
    else if raw[0] == '%' then
      if |raw| < 4 || raw[1] != '{' || raw[|raw| - 1] != '}' || !Identifier(raw[2..|raw| - 1]) then None
      else Some(Segment(raw[2..|raw| - 1], true))
    else if Identifier(raw) then Some(Segment(raw, false)) else None
  }

  function PrintSegment(seg: Segment): string {
    if seg.param then "%{" + seg.literal + "}" else seg.literal
  }

  lemma {:induction false} SegmentRoundTrip(seg: Segment)
    requires Identifier(seg.literal)
    ensures ParseSegment(PrintSegment(seg)) == Some(seg) && Free(PrintSegment(seg), '/')
  {
    IdentifierIsClean(seg.literal);
    if seg.param {
      var raw := PrintSegment(seg);
      assert raw[2..|raw| - 1] == seg.literal;
    }
  }

  lemma {:induction false} SegmentPrints(raw: string)
    requires ParseSegment(raw).Some?
    ensures PrintSegment(ParseSegment(raw).value) == raw && Identifier(ParseSegment(raw).value.literal)
  {
    if raw[0] == '%' {
      assert raw == raw[..2] + raw[2..|raw| - 1] + raw[|raw| - 1..];
      assert raw[..2] == "%{" && raw[|raw| - 1..] == "}";
    }
  }

  function ParseAll(raws: seq<string>): Option<seq<Segment>> {
    if raws == [] then Some([]) else
      var n := |raws| - 1;
      var front, last := ParseAll(raws[..n]), ParseSegment(raws[n]);
      if front.None? || last.None? then None else Some(front.value + [last.value])
  }

  /** The pattern an endpoint string denotes, if it is well formed. */
  function Parse(endpoint: string): Option<seq<Segment>> {
    if endpoint == "" || endpoint[0] != '/' then None else
      var segs := ParseAll(Split(endpoint[1..]));
      if segs.None? || |segs.value| > MAX_DEPTH then None else segs
  }

  function Printed(segs: seq<Segment>): seq<string> {
    seq(|segs|, i requires 0 <= i < |segs| => PrintSegment(segs[i]))
  }

  function Print(segs: seq<Segment>): string {
    "/" + Join(Printed(segs))
  }

  ghost predicate ValidSegments(segs: seq<Segment>) {
    segs != [] && forall i :: 0 <= i < |segs| ==> Identifier(segs[i].literal)
  }

  lemma {:induction false} ParsePrinted(segs: seq<Segment>)
    requires forall i :: 0 <= i < |segs| ==> Identifier(segs[i].literal)
    ensures ParseAll(Printed(segs)) == Some(segs)
    decreases |segs|
  {
    hide ParseSegment, PrintSegment, Identifier;
    if segs != [] {
      var n := |segs| - 1;
      ParsePrinted(segs[..n]);
      assert Printed(segs)[..n] == Printed(segs[..n]);
      SegmentRoundTrip(segs[n]);
      assert segs == segs[..n] + [segs[n]];
    }
  }

  lemma {:induction false} PrintedParse(raws: seq<string>)
    requires ParseAll(raws).Some?
    ensures Printed(ParseAll(raws).value) == raws
    ensures forall i :: 0 <= i < |raws| ==> Identifier(ParseAll(raws).value[i].literal)
    decreases |raws|
  {
    if raws != [] {
      var n := |raws| - 1;
      PrintedParse(raws[..n]);
      SegmentPrints(raws[n]);
      assert raws == raws[..n] + [raws[n]];
    }
  }

  /** Parsing and printing are inverse: a pattern of up to 64 valid levels is what its
      printed form parses to. */
  lemma {:induction false} PrintParses(segs: seq<Segment>)
    requires ValidSegments(segs) && |segs| <= 64
    ensures Parse(Print(segs)) == Some(segs)
  {
    forall i | 0 <= i < |segs| ensures Free(Printed(segs)[i], '/') {
      SegmentRoundTrip(segs[i]);
    }
    SplitJoin(Printed(segs));
    assert Print(segs)[1..] == Join(Printed(segs));
    ParsePrinted(segs);
  }

  /** ... and an endpoint that parses prints back to itself. */
  lemma {:induction false} ParsePrints(endpoint: string)
    requires Parse(endpoint).Some?
    ensures Print(Parse(endpoint).value) == endpoint
    ensures ValidSegments(Parse(endpoint).value) && |Parse(endpoint).value| <= 64
  {
    var rest := endpoint[1..];
    PrintedParse(Split(rest));
    JoinSplit(rest);
    assert endpoint == "/" + rest;
    assert |Printed(Parse(endpoint).value)| == |Split(rest)|;
  }

  lemma {:induction false} SplitStep(rest: string)
    ensures var i := IndexOf(rest, '/');
            Split(rest) == if i == |rest| then [rest] else [rest[..i]] + Split(rest[i + 1..])
    ensures IndexOf(rest, '/') + 1 == |rest| ==> Split(rest) == [rest[..|rest| - 1], ""]
  {
    if IndexOf(rest, '/') + 1 == |rest| {
      assert rest[|rest|..] == "" && Split("") == [""];
    }
  }

  lemma {:induction false} ParsedMore(
    all: seq<string>, seen: seq<string>, segs: seq<Segment>, raw: string, more: seq<string>)
    requires ParseAll(seen) == Some(segs) && all == seen + [raw] + more
    ensures ParseSegment(raw).None? ==> ParseAll(all).None?
    ensures ParseSegment(raw).Some? ==> ParseAll(seen + [raw]) == Some(segs + [ParseSegment(raw).value])
  {
    assert (seen + [raw])[..|seen|] == seen && all[|seen|] == raw;
    ParseAllFails(all, |seen|);
  }

  /** The splitting loop, with its separate treatment of a trailing slash. */
  method SplitEndpoint(endpoint: string) returns (r: Option<seq<Segment>>)
    ensures r == Parse(endpoint)
  {
    if endpoint == "" || endpoint[0] != '/' {
      return None;
    }
    r := SplitLevels(endpoint[1..], endpoint[|endpoint| - 1] == '/');
    if r.Some? && |r.value| > MAX_DEPTH {
      return None;
    }
  }

  lemma EmptySegment()
    ensures ParseSegment("").None?
  {
  }

  method SplitLevels(levels: string, slash: bool) returns (r: Option<seq<Segment>>)
    requires levels != "" ==> (slash <==> levels[|levels| - 1] == '/')
    ensures r == ParseAll(Split(levels))
  {
    hide ParseSegment;
    EmptySegment();
    var segs, rest := [], levels;
    ghost var all, seen := Split(levels), [];
    assert seen + Split(rest) == all;
    while true
      invariant seen + Split(rest) == all && ParseAll(seen) == Some(segs)
      invariant rest != "" ==> (slash <==> rest[|rest| - 1] == '/')
      invariant rest != "" || seen == []
      decreases |rest|
    {
      var raw;
      var i := IndexOf(rest, '/');
      ghost var more := if i < |rest| then Split(rest[i + 1..]) else [];
      SplitStep(rest);
      if i < |rest| {
        raw, rest := rest[..i], rest[i + 1..];
      } else {
        raw, rest := rest, "";
      }
      assert all == seen + [raw] + more;
      var seg := ParseSegment(raw);
      ParsedMore(all, seen, segs, raw, more);
      if seg.None? {
        return None;
      }
      seen := seen + [raw];
      segs := segs + [seg.value];
      if rest == "" && !slash {
        break;
      }
      if rest == "" {
        TrailingSlash(all, seen);
        return None;
      }
    }
    r := Some(segs);
  }

  lemma {:induction false} ParseAllFails(raws: seq<string>, i: nat)
    requires i < |raws|
    ensures ParseSegment(raws[i]).None? ==> ParseAll(raws).None?
    decreases |raws|
  {
    if i < |raws| - 1 {
      ParseAllFails(raws[..|raws| - 1], i);
    }
  }

  lemma {:induction false} TrailingSlash(all: seq<string>, seen: seq<string>)
    requires all == seen + [""]
    ensures ParseAll(all).None?
  {
    ParseAllFails(all, |seen|);
  }

  function KeyOf(seg: Segment): Key {
    if seg.param then Any else Lit(seg.literal)
  }

  function Keys(segs: seq<Segment>): (p: Pattern)
    ensures |p| == |segs|
  {
    seq(|segs|, i requires 0 <= i < |segs| => KeyOf(segs[i]))
  }

  function PrintKey(k: Key): string {
    if k.Any? then "%{}" else k.text
  }

  /** The canonical text of a pattern. */
  function Normal(p: Pattern): string {
    if p == [] then "" else Normal(p[..|p| - 1]) + "/" + PrintKey(p[|p| - 1])
  }

  method NormalizeEndpoint(segs: seq<Segment>) returns (buf: string)
    ensures buf == Normal(Keys(segs))
  {
    buf := "";
    for i := 0 to |segs|
      invariant buf == Normal(Keys(segs)[..i])
    {
      assert Keys(segs)[..i + 1][..i] == Keys(segs)[..i];
      buf := buf + "/" + if segs[i].param then "%{}" else segs[i].literal;
    }
    assert Keys(segs)[..|segs|] == Keys(segs);
  }

  ghost predicate ValidPattern(p: Pattern) {
    forall i :: 0 <= i < |p| && p[i].Lit? ==> Identifier(p[i].text)
  }

  lemma {:induction false} PrintKeyInjective(a: Key, b: Key)
    requires a.Lit? ==> Identifier(a.text)
    requires b.Lit? ==> Identifier(b.text)
    ensures PrintKey(a) == PrintKey(b) ==> a == b
    ensures Free(PrintKey(a), '/')
  {
    if a.Lit? { IdentifierIsClean(a.text); }
    if b.Lit? { IdentifierIsClean(b.text); }
    assert !Free("%{}", '%') by { assert "%{}"[0] == '%'; }
  }

  lemma {:induction false} LastSlash(x: string, y: string, a: string, b: string)
    requires Free(a, '/') && Free(b, '/') && x + "/" + a == y + "/" + b
    ensures x == y && a == b
  {
    var s, t := x + "/" + a, y + "/" + b;
    assert s[|x|] == '/' && t[|y|] == '/';
    assert forall k :: |x| < k < |s| ==> s[k] == a[k - |x| - 1];
    assert forall k :: |y| < k < |t| ==> t[k] == b[k - |y| - 1];
    assert |x| == |y|;
    assert s[..|x|] == x && t[..|y|] == y && s[|x| + 1..] == a && t[|y| + 1..] == b;
  }

  lemma {:induction false} NormalLast(p: Pattern, q: Pattern)
    requires ValidPattern(p) && ValidPattern(q) && p != [] && q != [] && Normal(p) == Normal(q)
    ensures Normal(p[..|p| - 1]) == Normal(q[..|q| - 1]) && p[|p| - 1] == q[|q| - 1]
  {
    var m, n := |p| - 1, |q| - 1;
    PrintKeyInjective(p[m], q[n]);
    PrintKeyInjective(q[n], p[m]);
    LastSlash(Normal(p[..m]), Normal(q[..n]), PrintKey(p[m]), PrintKey(q[n]));
  }

  lemma {:induction false} NormalIsText(p: Pattern)
    ensures Normal(p) == "" <==> p == []
  {
  }

  /** Two endpoints have the same canonical text exactly when they differ at most in
      placeholder names. */
  lemma {:induction false} NormalIsInjective(p: Pattern, q: Pattern)
    requires ValidPattern(p) && ValidPattern(q)
    ensures Normal(p) == Normal(q) <==> p == q
    decreases |p|
  {
    hide Normal, PrintKey;
    NormalIsText(p);
    NormalIsText(q);
    if Normal(p) == Normal(q) && p != [] {
      var a, b := p[..|p| - 1], q[..|q| - 1];
      NormalLast(p, q);
      NormalIsInjective(a, b);
      assert p == a + [p[|p| - 1]] && q == b + [q[|q| - 1]];
    }
  }

  /** What a placeholder may stand for. */
  predicate ValueOk(s: string) {
    s != "" && |s| <= MAX_VALUE && '+' !in s && '#' !in s
  }

  predicate KeyMatches(k: Key, s: string) {
    match k
    case Any => 1 <= |s| <= 256 && '+' !in s && '#' !in s
    case Lit(t) => s == t && s != ""
  }

  /** The declared meaning: a path matches a pattern level by level. */
  ghost predicate Matches(p: Pattern, parts: seq<string>) {
    |p| == |parts| && forall i :: 0 <= i < |p| ==> KeyMatches(p[i], parts[i])
  }

  ghost predicate MatchesPath(p: Pattern, path: string) {
    |path| >= 2 && path[0] == '/' && Matches(p, Split(path[1..]))
  }

  /** The pairwise level test of the uniqueness check. */
  ghost predicate LevelOverlap(a: Key, b: Key) {
    a.Any? || b.Any? || a == b
  }

  ghost predicate Overlap(p: Pattern, q: Pattern) {
    |p| == |q| && forall i :: 0 <= i < |p| ==> LevelOverlap(p[i], q[i])
  }

  ghost predicate Ambiguous(p: Pattern, q: Pattern) {
    exists path :: MatchesPath(p, path) && MatchesPath(q, path)
  }

  /** A literal too long for any placeholder, opposite one. */
  ghost predicate OutOfReach(a: Key, b: Key) {
    (a.Any? && b.Lit? && |b.text| > MAX_VALUE) || (b.Any? && a.Lit? && |a.text| > MAX_VALUE)
  }

  function Meet(a: Key, b: Key): string {
    if a.Lit? then a.text else if b.Lit? then b.text else "x"
  }

  /** Two patterns match a common path exactly when they overlap at every level and no
      literal over 256 bytes faces a placeholder; in particular patterns that pass the
      uniqueness check never match the same path. */
  lemma {:induction false} AmbiguousIff(p: Pattern, q: Pattern)
    requires ValidPattern(p) && ValidPattern(q) && p != []
    ensures Ambiguous(p, q) <==> Overlap(p, q) && forall i :: 0 <= i < |p| ==> !OutOfReach(p[i], q[i])
  {
    if Overlap(p, q) && forall i :: 0 <= i < |p| ==> !OutOfReach(p[i], q[i]) {
      var parts := seq(|p|, i requires 0 <= i < |p| && |q| == |p| => Meet(p[i], q[i]));
      forall i | 0 <= i < |p| ensures KeyMatches(p[i], parts[i]) && KeyMatches(q[i], parts[i]) && Free(parts[i], '/') {
        assert LevelOverlap(p[i], q[i]);
        LiteralIsValue(p[i]);
        LiteralIsValue(q[i]);
      }
      SplitJoin(parts);
      var path := "/" + Join(parts);
      assert path[1..] == Join(parts);
      assert KeyMatches(p[0], parts[0]) && Split("") == [""];
      assert MatchesPath(p, path) && MatchesPath(q, path);
    }
  }

  lemma {:induction false} LiteralIsValue(k: Key)
    requires k.Lit? ==> Identifier(k.text)
    ensures k.Lit? ==> Free(k.text, '/') && (|k.text| <= MAX_VALUE ==> ValueOk(k.text))
  {
    if k.Lit? {
      IdentifierIsClean(k.text);
    }
  }

  /** A placeholder beside a literal of more than 256 bytes is rejected as overlapping,
      though no path matches both. */
  lemma {:induction false} OverlapWithoutPath(long: string)
    requires Identifier(long) && |long| > MAX_VALUE
    ensures Overlap([Any], [Lit(long)]) && !Ambiguous([Any], [Lit(long)])
  {
    assert OutOfReach([Any][0], [Lit(long)][0]);
    AmbiguousIff([Any], [Lit(long)]);
  }
}
