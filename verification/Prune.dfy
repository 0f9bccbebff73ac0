/** Skipping directories: what three probes prove about everything below. */
module Prune {
  import opened Bytes

  type Names = seq<string>

  const PROBE_SEGMENT := "__dbackup_probe__"
  const PROBE_DEPTH := 3

  // ----------------------------------------------------------------- patterns

  datatype Token = Literal(c: char) | AnyOne | AnyRun

  datatype Part = GlobStar | Segment(tokens: seq<Token>)

  /** A compiled pattern: what its braces expand to, and whether a leading '!' turns it around. */
  datatype Pattern = Pattern(alternatives: seq<seq<Part>>, negated: bool)

  predicate SegmentMatch(tokens: seq<Token>, name: string)
    decreases |tokens|, |name|
  {
    if tokens == [] then name == ""
    else if tokens[0].AnyRun? then
      SegmentMatch(tokens[1..], name) || (name != "" && SegmentMatch(tokens, name[1..]))
    else
      name != "" && (tokens[0].AnyOne? || tokens[0].c == name[0]) && SegmentMatch(tokens[1..], name[1..])
  }

  /** `**` is any number of segments, at least one where it ends the pattern. */
  predicate PathMatch(parts: seq<Part>, path: Names)
    decreases |parts|, |path|
  {
    if parts == [] then path == []
    else if parts[0].GlobStar? then
      if |parts| == 1 then path != []
      else PathMatch(parts[1..], path) || (path != [] && PathMatch(parts, path[1..]))
    else
      path != [] && SegmentMatch(parts[0].tokens, path[0]) && PathMatch(parts[1..], path[1..])
  }

  /** A pattern of one part is matched against the last segment alone. */
  predicate AlternativeMatch(parts: seq<Part>, path: Names) {
    if |parts| == 1 then path != [] && PathMatch(parts, [path[|path| - 1]]) else PathMatch(parts, path)
  }

  predicate Match(pattern: Pattern, path: Names) {
    (exists i :: 0 <= i < |pattern.alternatives| && AlternativeMatch(pattern.alternatives[i], path)) != pattern.negated
  }

  /** What trimming removes. */
  const WHITESPACE := " \t\n\r\U{000B}\U{000C}\U{00A0}\U{1680}\U{2028}\U{2029}\U{202F}\U{205F}\U{3000}\U{FEFF}"
                    + "\U{2000}\U{2001}\U{2002}\U{2003}\U{2004}\U{2005}\U{2006}\U{2007}\U{2008}\U{2009}\U{200A}"

  predicate IsBlank(text: string) {
    forall i :: 0 <= i < |text| ==> text[i] in WHITESPACE
  }

  function Probe(base: Names, depth: nat): Names {
    base + seq(depth, _ => PROBE_SEGMENT)
  }

  predicate Probed(pattern: Pattern, base: Names, depth: nat) {
    forall d :: 1 <= d <= depth ==> Match(pattern, Probe(base, d))
  }

  /** Patterns compiled once. Parsing is a parameter; the table only remembers it. */
  class Matchers {
    const parse: string -> Pattern
    var compiled: map<string, Pattern>

    ghost predicate Valid()
      reads this
    {
      forall text :: text in compiled ==> compiled[text] == parse(text)
    }

    constructor (parse: string -> Pattern)
      ensures Valid() && this.parse == parse
    {
      this.parse, compiled := parse, map[];
    }

    method GetCompiled(text: string) returns (pattern: Pattern)
      requires Valid()
      modifies `compiled
      ensures Valid() && pattern == parse(text)
      ensures compiled == old(compiled)[text := parse(text)]
    {
      if text !in compiled {
        compiled := compiled[text := parse(text)];
      }
      pattern := compiled[text];
    }

    /** The first pattern that matches every probe by itself. */
    method CanPruneDirectory(base: Names, patterns: seq<string>) returns (found: Option<string>)
      requires Valid()
      modifies `compiled
      ensures Valid() && found == Prunes(parse, base, patterns)
    {
      if patterns == [] || base == [] {
        return None;
      }
      for i := 0 to |patterns|
        invariant Valid()
        invariant Prunes(parse, base, patterns) == Prunes(parse, base, patterns[i..])
      {
        assert patterns[i..][1..] == patterns[i + 1..];
        if IsBlank(patterns[i]) {
          continue;
        }
        var pattern := GetCompiled(patterns[i]);
        var depth := 1;
        while depth <= PROBE_DEPTH && Match(pattern, Probe(base, depth))
          invariant 1 <= depth <= PROBE_DEPTH + 1
          invariant Probed(pattern, base, depth - 1)
        {
          depth := depth + 1;
        }
        if depth > PROBE_DEPTH {
          return Some(patterns[i]);
        }
        assert !Match(pattern, Probe(base, depth));
      }
      found := None;
    }
  }

  function Prunes(parse: string -> Pattern, base: Names, patterns: seq<string>): Option<string> {
    if patterns == [] || base == [] then None
    else if !IsBlank(patterns[0]) && Probed(parse(patterns[0]), base, PROBE_DEPTH) then Some(patterns[0])
    else Prunes(parse, base, patterns[1..])
  }

  predicate Excluded(parse: string -> Pattern, path: Names, patterns: seq<string>) {
    exists i :: 0 <= i < |patterns| && !IsBlank(patterns[i]) && Match(parse(patterns[i]), path)
  }

  // ------------------------------------------------------------- assumptions

  /** If it accepts the probe name it accepts every name. */
  ghost predicate Honest(tokens: seq<Token>) {
    SegmentMatch(tokens, "__dbackup_probe__") ==> forall name :: name != "" ==> SegmentMatch(tokens, name)
  }

  ghost predicate HonestParts(parts: seq<Part>) {
    forall i :: 0 <= i < |parts| && parts[i].Segment? ==> Honest(parts[i].tokens)
  }

  predicate HasStar(parts: seq<Part>) {
    exists i :: 0 <= i < |parts| && parts[i].GlobStar?
  }

  /** How many segments follow the last `**`. */
  function AfterStar(parts: seq<Part>): (n: nat)
    ensures n <= |parts|
  {
    if parts == [] || parts[|parts| - 1].GlobStar? then 0 else 1 + AfterStar(parts[..|parts| - 1])
  }

  predicate Named(path: Names) {
    forall i :: 0 <= i < |path| ==> path[i] != ""
  }

  /** Either one alternative, or every alternative reaches any depth; and no tail is longer than the probes. */
  ghost predicate Probeable(pattern: Pattern, depth: nat) {
    && !pattern.negated
    && forall i :: 0 <= i < |pattern.alternatives| ==>
         var parts := pattern.alternatives[i];
         && HonestParts(parts)
         && (|parts| > 1 ==> HasStar(parts) || |pattern.alternatives| == 1)
         && (|parts| > 1 && HasStar(parts) ==> AfterStar(parts) <= depth)
  }

  /** The pattern excludes every path strictly below the directory. */
  ghost predicate CoversBelow(pattern: Pattern, base: Names) {
    forall rest :: rest != [] && Named(rest) ==> Match(pattern, base + rest)
  }

  // ------------------------------------------------------- how matches extend

  predicate Stands(s: Names, t: Names) {
    |s| == |t| && forall i :: 0 <= i < |s| ==> t[i] == s[i] || (s[i] == PROBE_SEGMENT && t[i] != "")
  }

  /** Whatever an honest pattern says of a probe it says of every path the probe stands for. */
  lemma {:induction false} ProbeStandsForAll(parts: seq<Part>, s: Names, t: Names)
    requires HonestParts(parts) && PathMatch(parts, s) && Stands(s, t)
    ensures PathMatch(parts, t)
    decreases |parts|, |s|
  {
    if parts != [] {
      if parts[0].GlobStar? {
        if |parts| > 1 {
          if PathMatch(parts[1..], s) {
            ProbeStandsForAll(parts[1..], s, t);
          } else {
            ProbeStandsForAll(parts, s[1..], t[1..]);
          }
        }
      } else {
        assert Honest(parts[0].tokens);
        ProbeStandsForAll(parts[1..], s[1..], t[1..]);
      }
    }
  }

  lemma {:induction false} WithoutStarFixedLength(parts: seq<Part>, path: Names)
    requires !HasStar(parts) && PathMatch(parts, path)
    ensures |path| == |parts|
    decreases |parts|
  {
    if parts != [] {
      assert !parts[0].GlobStar?;
      NoStarInRest(parts);
      WithoutStarFixedLength(parts[1..], path[1..]);
    }
  }

  lemma NoStarInRest(parts: seq<Part>)
    requires parts != []
    ensures HasStar(parts) <==> parts[0].GlobStar? || HasStar(parts[1..])
  {
    if HasStar(parts[1..]) {
      var i :| 0 <= i < |parts[1..]| && parts[1..][i].GlobStar?;
      assert parts[i + 1].GlobStar?;
    }
    if HasStar(parts) && !parts[0].GlobStar? {
      var i :| 0 <= i < |parts| && parts[i].GlobStar?;
      assert parts[1..][i - 1].GlobStar?;
    }
  }

  lemma {:induction false} AfterStarOfRest(parts: seq<Part>)
    requires parts != [] && (HasStar(parts[1..]) || !HasStar(parts))
    ensures HasStar(parts[1..]) ==> AfterStar(parts) == AfterStar(parts[1..])
    ensures !HasStar(parts) ==> AfterStar(parts) == |parts|
    decreases |parts|
  {
    NoStarInRest(parts);
    var last := |parts| - 1;
    if |parts| > 1 {
      assert parts[1..][|parts[1..]| - 1] == parts[last];
      assert parts[1..][..last - 1] == parts[..last][1..];
      if !parts[last].GlobStar? {
        StarInFront(parts[1..]);
        StarInFront(parts);
        AfterStarOfRest(parts[..last]);
      }
    } else {
      assert !HasStar([]);
      if !HasStar(parts) {
        assert !parts[last].GlobStar? && AfterStar(parts[..last]) == 0;
      }
    }
  }

  lemma StarInFront(parts: seq<Part>)
    requires parts != [] && !parts[|parts| - 1].GlobStar?
    ensures HasStar(parts) <==> HasStar(parts[..|parts| - 1])
  {
    if HasStar(parts) {
      var i :| 0 <= i < |parts| && parts[i].GlobStar?;
      assert parts[..|parts| - 1][i].GlobStar?;
    }
  }

  lemma {:induction false} AfterFirstStarOnly(parts: seq<Part>)
    requires parts != [] && parts[0].GlobStar? && !HasStar(parts[1..])
    ensures AfterStar(parts) == |parts| - 1
    decreases |parts|
  {
    var last := |parts| - 1;
    if |parts| > 1 {
      assert parts[last] == parts[1..][last - 1];
      assert !parts[last].GlobStar?;
      assert parts[..last][1..] == parts[1..][..last - 1];
      StarInFront(parts[1..]);
      AfterFirstStarOnly(parts[..last]);
    }
  }

  /** A match covers at least the segments after the last `**`. */
  lemma {:induction false} MatchCoversTail(parts: seq<Part>, path: Names)
    requires HasStar(parts) && PathMatch(parts, path)
    ensures |path| >= AfterStar(parts)
    decreases |parts|, |path|
  {
    NoStarInRest(parts);
    if parts[0].GlobStar? && |parts| > 1 && !PathMatch(parts[1..], path) {
      MatchCoversTail(parts, path[1..]);
    } else if HasStar(parts[1..]) {
      AfterStarOfRest(parts);
      MatchCoversTail(parts[1..], if parts[0].GlobStar? then path else path[1..]);
    } else {
      AfterFirstStarOnly(parts);
      if |parts| > 1 {
        WithoutStarFixedLength(parts[1..], path);
      }
    }
  }

  lemma {:induction false} StarSkips(parts: seq<Part>, extra: Names, path: Names)
    requires |parts| > 1 && parts[0].GlobStar? && PathMatch(parts, path)
    ensures PathMatch(parts, extra + path)
    decreases |extra|
  {
    if extra == [] {
      assert extra + path == path;
    } else {
      assert (extra + path)[1..] == extra[1..] + path;
      StarSkips(parts, extra[1..], path);
    }
  }

  /** Segments can be slipped in just before the stretch the parts after the last `**` cover. */
  lemma {:induction false} MatchStretches(parts: seq<Part>, front: Names, extra: Names, tail: Names)
    requires HasStar(parts) && |tail| == AfterStar(parts) && PathMatch(parts, front + tail)
    ensures PathMatch(parts, front + extra + tail)
    decreases |parts|, |front|
  {
    var path, longer := front + tail, front + extra + tail;
    NoStarInRest(parts);
    if parts[0].GlobStar? && |parts| > 1 && !PathMatch(parts[1..], path) {
      MatchCoversTail(parts, path[1..]);
      assert path[1..] == front[1..] + tail && longer[1..] == front[1..] + extra + tail;
      MatchStretches(parts, front[1..], extra, tail);
    } else if HasStar(parts[1..]) {
      AfterStarOfRest(parts);
      if parts[0].GlobStar? {
        MatchStretches(parts[1..], front, extra, tail);
      } else {
        MatchCoversTail(parts[1..], path[1..]);
        assert path[1..] == front[1..] + tail && longer[1..] == front[1..] + extra + tail;
        MatchStretches(parts[1..], front[1..], extra, tail);
      }
    } else {
      AfterFirstStarOnly(parts);
      if |parts| > 1 {
        WithoutStarFixedLength(parts[1..], path);
        assert front == [] && longer == extra + tail && path == tail;
        StarSkips(parts, extra, tail);
      }
    }
  }

  // ------------------------------------------------------------ the soundness

  lemma ProbeLast(base: Names, d: nat)
    requires d > 0
    ensures Probe(base, d)[|Probe(base, d)| - 1] == PROBE_SEGMENT
  {
  }

  /** One alternative that matches the deepest probe matches every probe deeper still. */
  lemma AlternativeReachesDeeper(parts: seq<Part>, base: Names, depth: nat, m: nat)
    requires 1 <= depth <= m && AlternativeMatch(parts, Probe(base, depth))
    requires |parts| > 1 ==> HasStar(parts) && AfterStar(parts) <= depth
    ensures AlternativeMatch(parts, Probe(base, m))
  {
    if |parts| == 1 {
      ProbeLast(base, depth);
      ProbeLast(base, m);
    } else {
      var k := AfterStar(parts);
      var front, tail := Probe(base, depth - k), seq(k, _ => PROBE_SEGMENT);
      var extra := seq(m - depth, _ => PROBE_SEGMENT);
      assert parts == [] ==> false by {
        assert HasStar(parts);
      }
      assert Probe(base, depth) == front + tail && Probe(base, m) == front + extra + tail;
      MatchStretches(parts, front, extra, tail);
    }
  }

  lemma AlternativeStandsForAll(parts: seq<Part>, base: Names, rest: Names)
    requires HonestParts(parts) && rest != [] && Named(rest)
    requires AlternativeMatch(parts, Probe(base, |rest|))
    ensures AlternativeMatch(parts, base + rest)
  {
    var probe, path := Probe(base, |rest|), base + rest;
    assert Stands(probe, path);
    if |parts| == 1 {
      ProbeStandsForAll(parts, [probe[|probe| - 1]], [path[|path| - 1]]);
    } else {
      ProbeStandsForAll(parts, probe, path);
    }
  }

  /** Probes to a depth no tail exceeds decide everything below: any depth, any names. */
  lemma ProbesCoverEverything(pattern: Pattern, base: Names, depth: nat, rest: Names)
    requires depth >= 2 && Probeable(pattern, depth) && Probed(pattern, base, depth)
    requires rest != [] && Named(rest)
    ensures Match(pattern, base + rest)
  {
    var m := |rest|;
    if m <= depth {
      assert Match(pattern, Probe(base, m));
      var i :| 0 <= i < |pattern.alternatives| && AlternativeMatch(pattern.alternatives[i], Probe(base, m));
      AlternativeStandsForAll(pattern.alternatives[i], base, rest);
    } else {
      assert Match(pattern, Probe(base, depth));
      var i :| 0 <= i < |pattern.alternatives| && AlternativeMatch(pattern.alternatives[i], Probe(base, depth));
      var parts := pattern.alternatives[i];
      if |parts| != 1 && !HasStar(parts) {
        SingleAlternative(pattern, base);
      }
      AlternativeReachesDeeper(parts, base, depth, m);
      AlternativeStandsForAll(parts, base, rest);
    }
  }

  /** A single alternative that matches two depths has a `**`, or looks at the last name only. */
  lemma SingleAlternative(pattern: Pattern, base: Names)
    requires Probed(pattern, base, 2) && !pattern.negated && |pattern.alternatives| == 1
    ensures |pattern.alternatives[0]| == 1 || HasStar(pattern.alternatives[0])
  {
    var parts := pattern.alternatives[0];
    assert Match(pattern, Probe(base, 1)) && Match(pattern, Probe(base, 2));
    if !HasStar(parts) {
      if |parts| != 1 {
        WithoutStarFixedLength(parts, Probe(base, 1));
        WithoutStarFixedLength(parts, Probe(base, 2));
      }
    }
  }

  /**
   * Exactly what probing decides: for a pattern with no tail longer than the probes, every probe
   * matches if and only if the pattern excludes every path strictly below the directory.
   */
  lemma ProbingExact(pattern: Pattern, base: Names, depth: nat)
    requires depth >= 2 && Probeable(pattern, depth)
    ensures Probed(pattern, base, depth) <==> CoversBelow(pattern, base)
  {
    if Probed(pattern, base, depth) {
      forall rest | rest != [] && Named(rest) ensures Match(pattern, base + rest) {
        ProbesCoverEverything(pattern, base, depth, rest);
      }
    }
    if CoversBelow(pattern, base) {
      forall d | 1 <= d <= depth ensures Match(pattern, Probe(base, d)) {
        var rest: Names := seq(d, _ => PROBE_SEGMENT);
        assert rest != [] && Named(rest);
      }
    }
  }

  /** Pruning is sound: the pattern returned excludes everything below the directory, and so does the list. */
  lemma {:induction false} PruningIsSound(parse: string -> Pattern, base: Names, patterns: seq<string>, rest: Names)
    requires Prunes(parse, base, patterns).Some? && rest != [] && Named(rest)
    requires Probeable(parse(Prunes(parse, base, patterns).value), 3)
    ensures Match(parse(Prunes(parse, base, patterns).value), base + rest)
    ensures Excluded(parse, base + rest, patterns)
    decreases |patterns|
  {
    hide Match, Probeable;
    if !IsBlank(patterns[0]) && Probed(parse(patterns[0]), base, PROBE_DEPTH) {
      ProbesCoverEverything(parse(patterns[0]), base, PROBE_DEPTH, rest);
    } else {
      PruningIsSound(parse, base, patterns[1..], rest);
      LaterExcludes(parse, base + rest, patterns);
    }
  }

  lemma LaterExcludes(parse: string -> Pattern, path: Names, patterns: seq<string>)
    requires patterns != [] && Excluded(parse, path, patterns[1..])
    ensures Excluded(parse, path, patterns)
  {
    var i :| 0 <= i < |patterns[1..]| && !IsBlank(patterns[1..][i]) && Match(parse(patterns[1..][i]), path);
    assert patterns[i + 1] == patterns[1..][i];
  }

  /** Whichever pattern ever gets a directory pruned is one that probing decides. */
  ghost predicate PrunersProbeable(parse: string -> Pattern, patterns: seq<string>) {
    forall base :: Prunes(parse, base, patterns).Some? ==>
                     Probeable(parse(Prunes(parse, base, patterns).value), 3)
  }

  // ------------------------------------------- every assumption is needed

  /** A segment can only match names that hold all its literal characters. */
  lemma {:induction false} LiteralsOccur(tokens: seq<Token>, name: string, i: nat)
    requires SegmentMatch(tokens, name) && i < |tokens| && tokens[i].Literal?
    ensures tokens[i].c in name
    decreases |tokens|, |name|
  {
    if tokens[0].AnyRun? && !SegmentMatch(tokens[1..], name) {
      LiteralsOccur(tokens, name[1..], i);
    } else if i > 0 {
      assert tokens[1..][i - 1] == tokens[i];
      LiteralsOccur(tokens[1..], if tokens[0].AnyRun? then name else name[1..], i - 1);
    }
  }

  /** So `*.log`, `node_modules` and the like are safe: the probe name lacks one of their characters. */
  lemma ForeignCharacterHonest(tokens: seq<Token>, i: nat)
    requires i < |tokens| && tokens[i].Literal? && tokens[i].c !in "__dbackup_probe__"
    ensures Honest(tokens)
  {
    if SegmentMatch(tokens, "__dbackup_probe__") {
      LiteralsOccur(tokens, "__dbackup_probe__", i);
    }
  }

  lemma {:induction false} StarTakesAnything(name: string)
    ensures SegmentMatch([AnyRun], name)
  {
    if name != "" {
      StarTakesAnything(name[1..]);
    }
  }

  /** For a pattern of one part: what the probes say, and what is true below the directory. */
  lemma OnePartDecides(tokens: seq<Token>, negated: bool, base: Names, depth: nat)
    requires depth > 0
    ensures var pattern := Pattern([[Segment(tokens)]], negated);
            && (Probed(pattern, base, depth) <==> SegmentMatch(tokens, "__dbackup_probe__") != negated)
            && (CoversBelow(pattern, base) <==> forall name :: name != "" ==> SegmentMatch(tokens, name) != negated)
  {
    hide Match, SegmentMatch, CoversBelow;
    var pattern := Pattern([[Segment(tokens)]], negated);
    OnePartCovers(tokens, negated, base);
    forall d | 1 <= d <= depth
      ensures Match(pattern, Probe(base, d)) <==> SegmentMatch(tokens, PROBE_SEGMENT) != negated
    {
      ProbeLast(base, d);
      OnePartMatch(tokens, negated, Probe(base, d));
    }
    assert Probed(pattern, base, depth) ==> Match(pattern, Probe(base, 1));
  }

  lemma OnePartCovers(tokens: seq<Token>, negated: bool, base: Names)
    ensures CoversBelow(Pattern([[Segment(tokens)]], negated), base) <==>
            forall name :: name != "" ==> SegmentMatch(tokens, name) != negated
  {
    hide Match, SegmentMatch;
    var pattern := Pattern([[Segment(tokens)]], negated);
    if CoversBelow(pattern, base) {
      forall name | name != "" ensures SegmentMatch(tokens, name) != negated {
        assert Named([name]);
        OnePartMatch(tokens, negated, base + [name]);
        assert (base + [name])[|base|] == name;
      }
    }
    if !CoversBelow(pattern, base) {
      var rest :| rest != [] && Named(rest) && !Match(pattern, base + rest);
      OnePartMatch(tokens, negated, base + rest);
      var name := rest[|rest| - 1];
      assert (base + rest)[|base + rest| - 1] == name && name != "";
      assert SegmentMatch(tokens, name) == negated;
    }
  }

  lemma OnePartMatch(tokens: seq<Token>, negated: bool, path: Names)
    requires path != []
    ensures Match(Pattern([[Segment(tokens)]], negated), path) <==> SegmentMatch(tokens, path[|path| - 1]) != negated
  {
    var parts, last := [Segment(tokens)], [path[|path| - 1]];
    assert PathMatch(parts[1..], last[1..]);
    assert PathMatch(parts, last) <==> SegmentMatch(tokens, last[0]);
    assert AlternativeMatch(parts, path) <==> PathMatch(parts, last);
    assert Pattern([parts], negated).alternatives[0] == parts;
  }

  function Stars(n: nat): seq<Part> {
    seq(n, _ => Segment([AnyRun]))
  }

  lemma {:induction false} StarsMatch(n: nat, path: Names)
    ensures PathMatch(Stars(n), path) <==> |path| == n
  {
    if n > 0 && path != [] {
      assert Stars(n)[1..] == Stars(n - 1);
      StarTakesAnything(path[0]);
      StarsMatch(n - 1, path[1..]);
    }
  }

  const B := Segment([Literal('b')])

  lemma BMatches(name: string)
    ensures SegmentMatch([Literal('b')], name) <==> name == "b"
  {
    if name != "" {
      assert SegmentMatch([], name[1..]) <==> name[1..] == "";
      assert name == [name[0]] + name[1..];
    }
  }

  /** The pattern star-star/b followed by n single stars, which looks at the name n + 1 from the end. */
  lemma {:induction false} LongTailMatch(n: nat, path: Names)
    ensures PathMatch([GlobStar, B] + Stars(n), path) <==> |path| > n && path[|path| - n - 1] == "b"
    decreases |path|
  {
    var parts := [GlobStar, B] + Stars(n);
    assert parts[1..] == [B] + Stars(n);
    assert parts[1..][1..] == Stars(n);
    if path != [] {
      StarsMatch(n, path[1..]);
      BMatches(path[0]);
      LongTailMatch(n, path[1..]);
    }
  }

  /**
   * The bound on the tail is sharp at every probing depth: one segment more, and all the probes match
   * while a path one level below the last of them is not excluded.
   */
  lemma TailBoundSharp(depth: nat)
    requires depth >= 1
    ensures var parts, base := [GlobStar, B] + Stars(depth), seq(depth, _ => "b");
            var pattern := Pattern([parts], false);
            && AfterStar(parts) == depth + 1 && HonestParts(parts)
            && Probed(pattern, base, depth) && !Match(pattern, Probe(base, depth + 1))
  {
    var parts, base := [GlobStar, B] + Stars(depth), seq(depth, _ => "b");
    var pattern := Pattern([parts], false);
    LongTailAfterStar(depth);
    forall i | 0 <= i < |parts| && parts[i].Segment? ensures Honest(parts[i].tokens) {
      if i == 1 {
        BMatches(PROBE_SEGMENT);
      } else {
        forall name | name != "" ensures SegmentMatch([AnyRun], name) {
          StarTakesAnything(name);
        }
      }
    }
    forall d | 1 <= d <= depth + 1 ensures Match(pattern, Probe(base, d)) <==> d <= depth {
      var probe := Probe(base, d);
      LongTailMatch(depth, probe);
      assert |probe| - depth - 1 == d - 1;
      assert pattern.alternatives[0] == parts;
      assert AlternativeMatch(parts, probe) <==> PathMatch(parts, probe);
    }
  }

  lemma {:induction false} LongTailAfterStar(n: nat)
    ensures AfterStar([GlobStar, B] + Stars(n)) == n + 1
  {
    var parts := [GlobStar, B] + Stars(n);
    if n == 0 {
      assert parts == [GlobStar, B] && parts[..1] == [GlobStar];
    } else {
      assert parts[..|parts| - 1] == [GlobStar, B] + Stars(n - 1);
      LongTailAfterStar(n - 1);
    }
  }

  lemma BraceMatch(n: nat, d: nat)
    requires n > 0
    ensures AlternativeMatch([B] + Stars(n), Probe(["b"], d)) <==> n == d
  {
    var parts, probe := [B] + Stars(n), Probe(["b"], d);
    assert parts[1..] == Stars(n);
    BMatches("b");
    StarsMatch(n, probe[1..]);
  }

  /** Braces: one alternative for each probed depth passes every probe and still keeps what lies deeper. */
  lemma BracesPassProbes(depth: nat)
    ensures var pattern := Pattern(seq(depth, k requires 0 <= k => [B] + Stars(k + 1)), false);
            Probed(pattern, ["b"], depth) && !Match(pattern, Probe(["b"], depth + 1))
  {
    var alternatives := seq(depth, k requires 0 <= k => [B] + Stars(k + 1));
    var pattern := Pattern(alternatives, false);
    hide AlternativeMatch;
    forall d, k: nat | 1 <= d <= depth + 1 && k < depth
      ensures AlternativeMatch(alternatives[k], Probe(["b"], d)) <==> k + 1 == d
    {
      BraceMatch(k + 1, d);
    }
    forall d | 1 <= d <= depth ensures Match(pattern, Probe(["b"], d)) {
      assert AlternativeMatch(alternatives[d - 1], Probe(["b"], d));
    }
  }

  // ------------------------------------------------ which patterns ever prune

  /** The three hypothetical files: directly inside, one level deeper, and one deeper still. */
  predicate MatchesInside(pattern: Pattern, base: Names) {
    && Match(pattern, base + ["__dbackup_probe__"])
    && Match(pattern, base + ["__dbackup_probe__", "__dbackup_probe__"])
    && Match(pattern, base + ["__dbackup_probe__", "__dbackup_probe__", "__dbackup_probe__"])
  }

  lemma ThreeProbes(pattern: Pattern, base: Names)
    ensures Probed(pattern, base, PROBE_DEPTH) <==> MatchesInside(pattern, base)
  {
    hide Match;
    assert Probe(base, 1) == base + ["__dbackup_probe__"];
    assert Probe(base, 2) == base + ["__dbackup_probe__", "__dbackup_probe__"];
    assert Probe(base, 3) == base + ["__dbackup_probe__", "__dbackup_probe__", "__dbackup_probe__"];
    if Probed(pattern, base, PROBE_DEPTH) {
      assert Match(pattern, Probe(base, 1)) && Match(pattern, Probe(base, 2)) && Match(pattern, Probe(base, 3));
    }
  }

  /** The answer is the first pattern, blank ones aside, that matches all three; without one, none. */
  lemma {:induction false} FirstThatMatchesInside(parse: string -> Pattern, base: Names, patterns: seq<string>)
    returns (i: nat)
    requires base != []
    ensures i <= |patterns|
    ensures Prunes(parse, base, patterns) == if i < |patterns| then Some(patterns[i]) else None
    ensures i < |patterns| ==> !IsBlank(patterns[i]) && MatchesInside(parse(patterns[i]), base)
    ensures forall j :: 0 <= j < i ==> IsBlank(patterns[j]) || !MatchesInside(parse(patterns[j]), base)
    decreases |patterns|
  {
    hide MatchesInside, IsBlank, Probed;
    if patterns == [] {
      return 0;
    }
    ThreeProbes(parse(patterns[0]), base);
    if !IsBlank(patterns[0]) && MatchesInside(parse(patterns[0]), base) {
      return 0;
    }
    var later := FirstThatMatchesInside(parse, base, patterns[1..]);
    i := later + 1;
    forall j | 0 <= j < i ensures IsBlank(patterns[j]) || !MatchesInside(parse(patterns[j]), base) {
      assert j > 0 ==> patterns[j] == patterns[1..][j - 1];
    }
  }

  /** A text with a visible character is not blank; one of spaces, tabs and line ends is. */
  lemma BlankOrNot(text: string)
    ensures (exists i :: 0 <= i < |text| && '!' <= text[i] <= '~') ==> !IsBlank(text)
    ensures (forall i :: 0 <= i < |text| ==> text[i] in " \t\r\n") ==> IsBlank(text)
  {
    if i :| 0 <= i < |text| && '!' <= text[i] <= '~' {
      assert text[i] !in WHITESPACE;
    }
  }

  /** A name without wildcards. */
  function Spelled(name: string): seq<Token> {
    seq(|name|, i requires 0 <= i < |name| => Literal(name[i]))
  }

  lemma {:induction false} SpelledMatch(name: string, other: string)
    ensures SegmentMatch(Spelled(name), other) <==> other == name
    decreases |name|
  {
    if name != "" && other != "" {
      assert Spelled(name)[1..] == Spelled(name[1..]);
      SpelledMatch(name[1..], other[1..]);
      assert name == [name[0]] + name[1..] && other == [other[0]] + other[1..];
    }
  }

  /** The parts of a segment pattern take the parts of a name, at some cut of it. */
  lemma {:induction false} SegmentInTwo(a: seq<Token>, b: seq<Token>, name: string)
    ensures SegmentMatch(a + b, name) <==>
            exists k :: 0 <= k <= |name| && SegmentMatch(a, name[..k]) && SegmentMatch(b, name[k..])
  {
    if SegmentMatch(a + b, name) {
      var k := SegmentSplits(a, b, name);
    }
    forall k | 0 <= k <= |name| && SegmentMatch(a, name[..k]) && SegmentMatch(b, name[k..])
      ensures SegmentMatch(a + b, name)
    {
      SegmentsJoin(a, b, name[..k], name[k..]);
      assert name[..k] + name[k..] == name;
    }
  }

  lemma {:induction false} SegmentSplits(a: seq<Token>, b: seq<Token>, name: string) returns (k: nat)
    requires SegmentMatch(a + b, name)
    ensures k <= |name| && SegmentMatch(a, name[..k]) && SegmentMatch(b, name[k..])
    decreases |a|, |name|
  {
    k := 0;
    if a == [] {
      assert a + b == b && name[0..] == name;
    } else {
      assert (a + b)[0] == a[0] && (a + b)[1..] == a[1..] + b;
      if a[0].AnyRun? && SegmentMatch(a[1..] + b, name) {
        k := SegmentSplits(a[1..], b, name);
      } else {
        var k' := SegmentSplits(if a[0].AnyRun? then a else a[1..], b, name[1..]);
        k := k' + 1;
        assert name[..k][0] == name[0] && name[..k][1..] == name[1..][..k'] && name[k..] == name[1..][k'..];
      }
    }
  }

  lemma {:induction false} SegmentsJoin(a: seq<Token>, b: seq<Token>, s: string, t: string)
    requires SegmentMatch(a, s) && SegmentMatch(b, t)
    ensures SegmentMatch(a + b, s + t)
    decreases |a|, |s|
  {
    if a == [] {
      assert a + b == b && s + t == t;
    } else {
      assert (a + b)[0] == a[0] && (a + b)[1..] == a[1..] + b;
      assert s != "" ==> (s + t)[0] == s[0] && (s + t)[1..] == s[1..] + t;
      if a[0].AnyRun? && SegmentMatch(a[1..], s) {
        SegmentsJoin(a[1..], b, s, t);
      } else {
        SegmentsJoin(if a[0].AnyRun? then a else a[1..], b, s[1..], t);
      }
    }
  }

  /** What each piece takes by itself. */
  lemma PiecesExact(c: char, name: string)
    ensures SegmentMatch([AnyRun], name)
    ensures SegmentMatch([AnyOne], name) <==> |name| == 1
    ensures SegmentMatch([Literal(c)], name) <==> name == [c]
  {
    StarTakesAnything(name);
    assert [AnyOne][1..] == [] && [Literal(c)][1..] == [];
  }

  /**
   * A bare name, such as the pattern node_modules, gets no directory pruned, not even one of that name:
   * only the name the hypothetical files carry would.
   */
  lemma BareNameNeverPrunes(parse: string -> Pattern, base: Names, text: string, name: string)
    requires parse(text) == Pattern([[Segment(Spelled(name))]], false)
    ensures Prunes(parse, base, [text]).Some? <==> base != [] && !IsBlank(text) && name == "__dbackup_probe__"
  {
    if base != [] {
      hide Match, Probed, IsBlank, SegmentMatch;
      OnePartDecides(Spelled(name), false, base, PROBE_DEPTH);
      SpelledMatch(name, "__dbackup_probe__");
      assert [text][1..] == [];
    }
  }

  lemma {:induction false} LastNameMatches(parts: seq<Part>, path: Names)
    requires parts != [] && parts[|parts| - 1].Segment? && PathMatch(parts, path)
    ensures path != [] && SegmentMatch(parts[|parts| - 1].tokens, path[|path| - 1])
    decreases |parts|, |path|
  {
    if |parts| > 1 {
      var rest := parts[1..];
      assert rest[|rest| - 1] == parts[|parts| - 1];
      if parts[0].GlobStar? && !PathMatch(rest, path) {
        LastNameMatches(parts, path[1..]);
      } else {
        LastNameMatches(rest, if parts[0].GlobStar? then path else path[1..]);
      }
    }
  }

  /** The pattern's last segment has a character of its own that the hypothetical name has not. */
  predicate EndsElsewhere(parts: seq<Part>) {
    parts != [] && parts[|parts| - 1].Segment? && HasForeign(parts[|parts| - 1].tokens)
  }

  predicate HasForeign(tokens: seq<Token>) {
    exists k :: 0 <= k < |tokens| && tokens[k].Literal? && tokens[k].c !in "__dbackup_probe__"
  }

  /** Nor does any other pattern that ends in a name of its own, such as *.log or a double star before one. */
  lemma NamedEndNeverPrunes(parse: string -> Pattern, base: Names, text: string)
    requires !parse(text).negated
    requires forall i :: 0 <= i < |parse(text).alternatives| ==> EndsElsewhere(parse(text).alternatives[i])
    ensures Prunes(parse, base, [text]) == None
  {
    if base != [] {
      var first := FirstThatMatchesInside(parse, base, [text]);
      var path := base + ["__dbackup_probe__"];
      forall i | 0 <= i < |parse(text).alternatives|
        ensures !AlternativeMatch(parse(text).alternatives[i], path)
      {
        EndsElsewhereMisses(parse(text).alternatives[i], path);
      }
      assert !Match(parse(text), path);
    }
  }

  lemma EndsElsewhereMisses(parts: seq<Part>, path: Names)
    requires EndsElsewhere(parts) && path != [] && path[|path| - 1] == "__dbackup_probe__"
    ensures !AlternativeMatch(parts, path)
  {
    hide SegmentMatch, PathMatch;
    var tokens := parts[|parts| - 1].tokens;
    var k :| 0 <= k < |tokens| && tokens[k].Literal? && tokens[k].c !in "__dbackup_probe__";
    if AlternativeMatch(parts, path) {
      LastNameMatches(parts, if |parts| == 1 then [path[|path| - 1]] else path);
      LiteralsOccur(tokens, "__dbackup_probe__", k);
    }
  }

  lemma {:induction false} AnywhereMatch(name: string, path: Names)
    ensures PathMatch([GlobStar, Segment(Spelled(name)), GlobStar], path) <==>
            exists i :: 0 <= i < |path| - 1 && path[i] == name
    decreases |path|
  {
    var parts := [GlobStar, Segment(Spelled(name)), GlobStar];
    assert parts[1..] == [Segment(Spelled(name)), GlobStar] && parts[1..][1..] == [GlobStar];
    if path != [] {
      SpelledMatch(name, path[0]);
      AnywhereMatch(name, path[1..]);
      assert PathMatch(parts[1..], path) <==> path[0] == name && |path| > 1;
      if i :| 0 <= i < |path| - 1 && path[i] == name {
        assert i > 0 ==> path[1..][i - 1] == name;
      }
      if i :| 0 <= i < |path[1..]| - 1 && path[1..][i] == name {
        assert path[i + 1] == name;
      }
    }
  }

  /** A name between two double stars prunes exactly the directories of that name and all below them. */
  lemma NameAnywherePrunesExactly(parse: string -> Pattern, base: Names, text: string, name: string)
    requires parse(text) == Pattern([[GlobStar, Segment(Spelled(name)), GlobStar]], false)
    requires !IsBlank(text) && base != []
    ensures Prunes(parse, base, [text]) == if name in base then Some(text) else None
  {
    hide PathMatch, IsBlank;
    var parts := [GlobStar, Segment(Spelled(name)), GlobStar];
    var pattern := Pattern([parts], false);
    assert [text][1..] == [];
    forall d | 1 <= d <= PROBE_DEPTH ensures name in base ==> Match(pattern, Probe(base, d)) {
      AnywhereMatch(name, Probe(base, d));
      if i :| 0 <= i < |base| && base[i] == name {
        assert Probe(base, d)[i] == name;
        assert AlternativeMatch(pattern.alternatives[0], Probe(base, d));
      }
    }
    if Match(pattern, Probe(base, 1)) {
      AnywhereMatch(name, Probe(base, 1));
      var i :| 0 <= i < |Probe(base, 1)| - 1 && Probe(base, 1)[i] == name;
      assert base[i] == name;
    }
  }

  // ---------------------------------------------------------------- the walk

  datatype Node = File(name: string) | Dir(name: string, children: seq<Node>)

  /** A tree walk: the files of a directory, then its subdirectories, except the pruned ones. */
  function Walk(parse: string -> Pattern, base: Names, children: seq<Node>, patterns: seq<string>, pruning: bool)
    : seq<Names>
  {
    FilesOf(base, children) + Subwalks(parse, base, children, patterns, pruning)
  }

  function FilesOf(base: Names, children: seq<Node>): seq<Names> {
    if children == [] then []
    else (if children[0].File? then [base + [children[0].name]] else []) + FilesOf(base, children[1..])
  }

  function Subwalks(parse: string -> Pattern, base: Names, children: seq<Node>, patterns: seq<string>, pruning: bool)
    : seq<Names>
    decreases children
  {
    if children == [] then []
    else
      (match children[0]
       case File(_) => []
       case Dir(name, below) =>
         if pruning && Prunes(parse, base + [name], patterns).Some? then []
         else FilesOf(base + [name], below) + Subwalks(parse, base + [name], below, patterns, pruning))
      + Subwalks(parse, base, children[1..], patterns, pruning)
  }

  /** A name path leads to a file of the tree. */
  predicate IsFile(children: seq<Node>, names: Names)
    decreases children
  {
    children != [] && names != [] &&
    (|| IsFile(children[1..], names)
     || match children[0]
        case File(name) => names == [name]
        case Dir(name, below) => names[0] == name && IsFile(below, names[1..]))
  }

  predicate LiesAt(base: Names, children: seq<Node>, path: Names) {
    |path| > |base| && path[..|base|] == base && IsFile(children, path[|base|..])
  }

  /** Without pruning the walk lists exactly the files of the tree, at whatever depth. */
  lemma {:induction false} FullWalkExact(parse: string -> Pattern, base: Names, children: seq<Node>,
                                         patterns: seq<string>, path: Names)
    ensures path in Walk(parse, base, children, patterns, false) <==> LiesAt(base, children, path)
    decreases children
  {
    hide Prunes;
    var subs := Subwalks(parse, base, children, patterns, false);
    InTwo(FilesOf(base, children), subs, path);
    if children != [] {
      var files, later := FilesOf(base, children[1..]), Subwalks(parse, base, children[1..], patterns, false);
      FullWalkExact(parse, base, children[1..], patterns, path);
      InTwo(files, later, path);
      match children[0] {
        case File(name) =>
          assert subs == later;
          InTwo([base + [name]], files, path);
          assert path == base + [name] <==>
                 |path| > |base| && path[..|base|] == base && path[|base|..] == [name];
        case Dir(name, below) =>
          var deeper := base + [name];
          FullWalkExact(parse, deeper, below, patterns, path);
          assert FilesOf(base, children) == files;
          InTwo(Walk(parse, deeper, below, patterns, false), later, path);
          OneDeeper(base, name, below, path);
      }
    }
  }

  lemma OneDeeper(base: Names, name: string, below: seq<Node>, path: Names)
    ensures LiesAt(base + [name], below, path) <==>
            && |path| > |base| && path[..|base|] == base && path[|base|] == name
            && IsFile(below, path[|base|..][1..])
  {
    hide IsFile;
    var deeper := base + [name];
    if |path| > |base| {
      assert path[..|deeper|] == path[..|base|] + [path[|base|]];
      assert path[|base|..][1..] == path[|deeper|..];
      assert path[|deeper|..] == [] ==> !IsFile(below, path[|deeper|..]) by {
        NoEmptyFile(below);
      }
    }
  }

  lemma NoEmptyFile(children: seq<Node>)
    ensures !IsFile(children, [])
  {
  }

  lemma InTwo(a: seq<Names>, b: seq<Names>, path: Names)
    ensures path in a + b <==> path in a || path in b
  {
  }

  function Keep(parse: string -> Pattern, paths: seq<Names>, patterns: seq<string>): seq<Names> {
    if paths == [] then []
    else (if Excluded(parse, paths[0], patterns) then [] else [paths[0]]) + Keep(parse, paths[1..], patterns)
  }

  lemma {:induction false} KeepInTwo(parse: string -> Pattern, a: seq<Names>, b: seq<Names>, patterns: seq<string>)
    ensures Keep(parse, a + b, patterns) == Keep(parse, a, patterns) + Keep(parse, b, patterns)
    decreases |a|
  {
    hide Excluded;
    if a == [] {
      assert a + b == b;
    } else {
      assert (a + b)[1..] == a[1..] + b;
      KeepInTwo(parse, a[1..], b, patterns);
    }
  }

  predicate WellNamed(children: seq<Node>) {
    forall i :: 0 <= i < |children| ==>
      children[i].name != "" && (children[i].Dir? ==> WellNamed(children[i].children))
  }

  predicate AllBelow(paths: seq<Names>, base: Names) {
    forall i :: 0 <= i < |paths| ==> |paths[i]| > |base| && paths[i][..|base|] == base && Named(paths[i][|base|..])
  }

  lemma {:induction false} WalkStaysBelow(parse: string -> Pattern, base: Names, children: seq<Node>,
                                          patterns: seq<string>)
    requires WellNamed(children)
    ensures AllBelow(FilesOf(base, children), base) && AllBelow(Subwalks(parse, base, children, patterns, false), base)
    decreases children
  {
    hide Prunes;
    if children != [] {
      WalkStaysBelow(parse, base, children[1..], patterns);
      if children[0].Dir? {
        var deeper := base + [children[0].name];
        var below := children[0].children;
        WalkStaysBelow(parse, deeper, below, patterns);
        BelowDeeper(FilesOf(deeper, below), base, children[0].name);
        BelowDeeper(Subwalks(parse, deeper, below, patterns, false), base, children[0].name);
      }
    }
  }

  lemma BelowDeeper(paths: seq<Names>, base: Names, name: string)
    requires AllBelow(paths, base + [name]) && name != ""
    ensures AllBelow(paths, base)
  {
    var deeper := base + [name];
    forall i | 0 <= i < |paths| ensures paths[i][..|base|] == base && Named(paths[i][|base|..]) {
      assert paths[i][..|base|] == paths[i][..|deeper|][..|base|] == base;
      assert paths[i][|base|..] == [name] + paths[i][|deeper|..] by {
        assert paths[i][|base|] == paths[i][..|deeper|][|base|];
      }
    }
  }

  lemma {:induction false} NothingKeptBelow(parse: string -> Pattern, base: Names, paths: seq<Names>,
                                            patterns: seq<string>)
    requires PrunersProbeable(parse, patterns)
    requires Prunes(parse, base, patterns).Some? && AllBelow(paths, base)
    ensures Keep(parse, paths, patterns) == []
    decreases |paths|
  {
    hide Prunes, Probeable, Excluded, Match;
    if paths != [] {
      var rest := paths[0][|base|..];
      assert paths[0] == base + rest;
      PruningIsSound(parse, base, patterns, rest);
      NothingKeptBelow(parse, base, paths[1..], patterns);
    }
  }

  lemma {:induction false} PrunedSubwalks(parse: string -> Pattern, base: Names, children: seq<Node>,
                                          patterns: seq<string>)
    requires PrunersProbeable(parse, patterns)
    requires WellNamed(children)
    ensures Keep(parse, Subwalks(parse, base, children, patterns, true), patterns)
         == Keep(parse, Subwalks(parse, base, children, patterns, false), patterns)
    decreases children
  {
    hide Prunes, PrunersProbeable, Keep;
    if children != [] {
      PrunedSubwalks(parse, base, children[1..], patterns);
      var restP := Subwalks(parse, base, children[1..], patterns, true);
      var restF := Subwalks(parse, base, children[1..], patterns, false);
      match children[0] {
        case File(_) =>
          assert [] + restP == restP && [] + restF == restF;
        case Dir(name, below) =>
          var deeper := base + [name];
          var files := FilesOf(deeper, below);
          var subP := Subwalks(parse, deeper, below, patterns, true);
          var subF := Subwalks(parse, deeper, below, patterns, false);
          KeepInTwo(parse, files + subF, restF, patterns);
          if Prunes(parse, deeper, patterns).Some? {
            assert WellNamed(below);
            WalkStaysBelow(parse, deeper, below, patterns);
            NothingKeptBelow(parse, deeper, files + subF, patterns);
            assert [] + restP == restP;
          } else {
            assert WellNamed(below);
            PrunedSubwalks(parse, deeper, below, patterns);
            KeepInTwo(parse, files + subP, restP, patterns);
            KeepInTwo(parse, files, subP, patterns);
            KeepInTwo(parse, files, subF, patterns);
          }
      }
    }
  }

  /** The pruned walk keeps exactly what filtering the full walk keeps, in the same order. */
  lemma PrunedWalkKeepsTheSame(parse: string -> Pattern, base: Names, children: seq<Node>, patterns: seq<string>)
    requires PrunersProbeable(parse, patterns) && WellNamed(children)
    ensures Keep(parse, Walk(parse, base, children, patterns, true), patterns)
         == Keep(parse, Walk(parse, base, children, patterns, false), patterns)
  {
    hide PrunersProbeable, Keep, Subwalks, WellNamed;
    var files := FilesOf(base, children);
    PrunedSubwalks(parse, base, children, patterns);
    KeepInTwo(parse, files, Subwalks(parse, base, children, patterns, true), patterns);
    KeepInTwo(parse, files, Subwalks(parse, base, children, patterns, false), patterns);
  }

  lemma {:induction false} KeepExact(parse: string -> Pattern, paths: seq<Names>, patterns: seq<string>, path: Names)
    ensures path in Keep(parse, paths, patterns) <==> path in paths && !Excluded(parse, path, patterns)
  {
    hide Excluded;
    if paths != [] {
      KeepExact(parse, paths[1..], patterns, path);
      assert path in paths <==> path == paths[0] || path in paths[1..];
    }
  }

  /** What a pruned and filtered walk keeps: the files of the tree no pattern excludes, and nothing else. */
  lemma PrunedWalkExact(parse: string -> Pattern, base: Names, children: seq<Node>, patterns: seq<string>, path: Names)
    requires PrunersProbeable(parse, patterns) && WellNamed(children)
    ensures path in Keep(parse, Walk(parse, base, children, patterns, true), patterns) <==>
            && LiesAt(base, children, path)
            && forall i :: 0 <= i < |patterns| ==> IsBlank(patterns[i]) || !Match(parse(patterns[i]), path)
  {
    hide PrunersProbeable, Keep, Walk, LiesAt, WellNamed, Match, IsBlank;
    PrunedWalkKeepsTheSame(parse, base, children, patterns);
    KeepExact(parse, Walk(parse, base, children, patterns, false), patterns, path);
    FullWalkExact(parse, base, children, patterns, path);
  }
}
