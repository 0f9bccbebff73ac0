/** Selection patterns: the glob compiler, the regular expressions it produces, and what they match. */
module Glob {
  import opened Bytes

  // ------------------------------------------------- regular expressions used

  datatype Atom = Char(c: char) | AnyButLineEnd | AnyButSlash

  datatype Term = Term(atom: Atom, star: bool)

  predicate IsLineTerminator(c: char) {
    c == '\n' || c == '\r' || c == '\U{2028}' || c == '\U{2029}'
  }

  /** The characters with a meaning of their own in a regular expression. */
  predicate IsSyntax(c: char) {
    c in ".+^${}()|[]\\*?"
  }

  predicate Accepts(atom: Atom, c: char) {
    match atom
    case Char(d) => c == d
    case AnyButLineEnd => !IsLineTerminator(c)
    case AnyButSlash => c != '/'
  }

  predicate AllAccepted(atom: Atom, s: string) {
    forall i :: 0 <= i < |s| ==> Accepts(atom, s[i])
  }

  /** Reads one atom; gives it with the number of characters it took. */
  function ReadAtom(source: string): (read: (Option<Atom>, nat))
    requires source != ""
    ensures 0 < read.1 <= |source|
  {
    if source[0] == '\\' then
      if |source| > 1 && IsSyntax(source[1]) then (Some(Char(source[1])), 2) else (None, 1)
    else if "[^/]" <= source then (Some(AnyButSlash), 4)
    else if source[0] == '.' then (Some(AnyButLineEnd), 1)
    else if IsSyntax(source[0]) then (None, 1)
    else (Some(Char(source[0])), 1)
  }

  /** The terms of a regular expression body: atoms, each with an optional star. */
  function ReadTerms(source: string): Option<seq<Term>>
    decreases |source|
  {
    if source == "" then Some([])
    else
      var (atom, length) := ReadAtom(source);
      var star := length < |source| && source[length] == '*';
      var rest := ReadTerms(source[length + (if star then 1 else 0)..]);
      if atom.None? || rest.None? then None else Some([Term(atom.value, star)] + rest.value)
  }

  /** An expression anchored at both ends. */
  function ReadAnchored(source: string): Option<seq<Term>> {
    if |source| >= 2 && source[0] == '^' && source[|source| - 1] == '$' then ReadTerms(source[1..|source| - 1])
    else None
  }

  /** Whole-string matching: a starred atom takes some stretch of accepted characters. */
  predicate Matches(terms: seq<Term>, s: string) {
    if terms == [] then s == ""
    else if terms[0].star then
      exists k {:trigger s[k..]} :: 0 <= k <= |s| && AllAccepted(terms[0].atom, s[..k]) && Matches(terms[1..], s[k..])
    else s != "" && Accepts(terms[0].atom, s[0]) && Matches(terms[1..], s[1..])
  }

  predicate Test(source: string, s: string) {
    ReadAnchored(source).Some? && Matches(ReadAnchored(source).value, s)
  }

  // ---------------------------------------------------------------- compiler

  function Escaped(c: char): (text: string)
    ensures text != ""
  {
    if c in ".+^${}()|[]\\" then ['\\', c] else [c]
  }

  function Compile(pattern: string): string {
    if pattern == "" then ""
    else if pattern[0] == '*' then
      if |pattern| > 1 && pattern[1] == '*' then ".*" + Compile(pattern[2..]) else "[^/]*" + Compile(pattern[1..])
    else if pattern[0] == '?' then "[^/]" + Compile(pattern[1..])
    else Escaped(pattern[0]) + Compile(pattern[1..])
  }

  lemma CompileFrom(pattern: string, i: nat)
    requires i < |pattern|
    ensures var c, rest := pattern[i], pattern[i + 1..];
            Compile(pattern[i..]) ==
            if c == '*' && rest != "" && rest[0] == '*' then ".*" + Compile(pattern[i + 2..])
            else (if c == '*' then "[^/]*" else if c == '?' then "[^/]" else Escaped(c)) + Compile(rest)
  {
    var here := pattern[i..];
    assert here[1..] == pattern[i + 1..];
    if |here| > 1 {
      assert here[2..] == pattern[i + 2..];
    }
  }

  method GlobToRegExp(pattern: string) returns (source: string)
    ensures source == "^" + Compile(pattern) + "$"
  {
    hide Compile, Escaped;
    var out := "";
    var i := 0;
    assert pattern[0..] == pattern && "" + Compile(pattern) == Compile(pattern);
    while i < |pattern|
      invariant 0 <= i <= |pattern|
      invariant out + Compile(pattern[i..]) == Compile(pattern)
    {
      var c := pattern[i];
      ghost var before := out;
      CompileFrom(pattern, i);
      if c == '*' {
        if i + 1 < |pattern| && pattern[i + 1] == '*' {
          out := out + ".*";
          assert before + (".*" + Compile(pattern[i + 2..])) == out + Compile(pattern[i + 2..]);
          i := i + 1;
        } else {
          out := out + "[^/]*";
          assert before + ("[^/]*" + Compile(pattern[i + 1..])) == out + Compile(pattern[i + 1..]);
        }
      } else if c == '?' {
        out := out + "[^/]";
        assert before + ("[^/]" + Compile(pattern[i + 1..])) == out + Compile(pattern[i + 1..]);
      } else {
        out := out + Escaped(c);
        assert before + (Escaped(c) + Compile(pattern[i + 1..])) == out + Compile(pattern[i + 1..]);
      }
      i := i + 1;
    }
    EmptyCompiles();
    assert pattern[|pattern|..] == "" && out + "" == out;
    source := "^" + out + "$";
  }

  lemma EmptyCompiles()
    ensures Compile("") == ""
  {
  }

  // ------------------------------------------------------------ what it means

  /**
   * A glob matched directly: `?` is one character of a segment, `*` any stretch of one, and `**`
   * any stretch at all - save line terminators, unless `crossLines`.
   */
  predicate GlobMatch(pattern: string, s: string, crossLines: bool)
    decreases |pattern|, |s|
  {
    if pattern == "" then s == ""
    else if pattern[0] == '*' && |pattern| > 1 && pattern[1] == '*' then
      || GlobMatch(pattern[2..], s, crossLines)
      || (s != "" && (crossLines || !IsLineTerminator(s[0])) && GlobMatch(pattern, s[1..], crossLines))
    else if pattern[0] == '*' then
      || GlobMatch(pattern[1..], s, crossLines)
      || (s != "" && s[0] != '/' && GlobMatch(pattern, s[1..], crossLines))
    else
      s != "" && (if pattern[0] == '?' then s[0] != '/' else s[0] == pattern[0])
      && GlobMatch(pattern[1..], s[1..], crossLines)
  }

  /** The terms a pattern stands for. */
  function Terms(pattern: string): seq<Term> {
    if pattern == "" then []
    else if pattern[0] == '*' then
      if |pattern| > 1 && pattern[1] == '*' then [Term(AnyButLineEnd, true)] + Terms(pattern[2..])
      else [Term(AnyButSlash, true)] + Terms(pattern[1..])
    else if pattern[0] == '?' then [Term(AnyButSlash, false)] + Terms(pattern[1..])
    else [Term(Char(pattern[0]), false)] + Terms(pattern[1..])
  }

  /** No output of the compiler starts with a star, so none is taken for a quantifier of what precedes it. */
  lemma NoStrayStar(pattern: string)
    ensures Compile(pattern) != "" ==> Compile(pattern)[0] != '*'
  {
  }

  lemma {:induction false} CompiledReadsBack(pattern: string)
    ensures ReadTerms(Compile(pattern)) == Some(Terms(pattern))
  {
    if pattern == "" {
      assert ReadTerms("") == Some([]);
    } else {
      hide ReadTerms, Escaped;
      if pattern[0] == '*' && |pattern| > 1 && pattern[1] == '*' {
        CompiledReadsBack(pattern[2..]);
        assert ".*" == "." + "*";
        ReadsOneTerm(".", AnyButLineEnd, true, Compile(pattern[2..]));
      } else {
        CompiledReadsBack(pattern[1..]);
        NoStrayStar(pattern[1..]);
        var rest := Compile(pattern[1..]);
        if pattern[0] == '*' {
          assert "[^/]*" == "[^/]" + "*";
          ReadsOneTerm("[^/]", AnyButSlash, true, rest);
        } else if pattern[0] == '?' {
          ReadsOneTerm("[^/]", AnyButSlash, false, rest);
        } else {
          ReadsOneTerm(Escaped(pattern[0]), Char(pattern[0]), false, rest);
        }
      }
    }
  }

  lemma ReadsOneTerm(text: string, atom: Atom, star: bool, rest: string)
    requires text != "" && (!star && rest != "" ==> rest[0] != '*')
    requires match atom
             case Char(c) => c != '*' && c != '?' && text == Escaped(c)
             case AnyButLineEnd => text == "."
             case AnyButSlash => text == "[^/]"
    requires ReadTerms(rest).Some?
    ensures ReadTerms((if star then text + "*" else text) + rest) == Some([Term(atom, star)] + ReadTerms(rest).value)
  {
    var source := (if star then text + "*" else text) + rest;
    assert ReadAtom(source) == (Some(atom), |text|) by {
      if atom.Char? {
        assert source[0] == text[0];
        if |text| == 2 {
          assert source[1] == text[1];
        } else {
          assert source[0] != '[';
        }
      } else if atom.AnyButSlash? {
        assert source[..4] == text;
      } else {
        assert source[0] == '.';
      }
    }
    if star {
      assert source[|text|] == '*';
      assert source[|text| + 1..] == rest;
    } else {
      assert source[|text|..] == rest;
      if rest != "" {
        assert source[|text|] == rest[0];
      }
    }
  }

  /** A starred term takes nothing, or one accepted character and then goes on. */
  lemma StarUnfolds(terms: seq<Term>, s: string)
    requires terms != [] && terms[0].star
    ensures Matches(terms, s) <==>
              Matches(terms[1..], s) || (s != "" && Accepts(terms[0].atom, s[0]) && Matches(terms, s[1..]))
  {
    var atom := terms[0].atom;
    if Matches(terms, s) {
      var k :| 0 <= k <= |s| && AllAccepted(atom, s[..k]) && Matches(terms[1..], s[k..]);
      if k == 0 {
        assert s[0..] == s;
      } else {
        assert Accepts(atom, s[..k][0]);
        assert s[1..][k - 1..] == s[k..];
        assert s[1..][..k - 1] == s[..k][1..];
        assert AllAccepted(atom, s[1..][..k - 1]);
      }
    }
    if Matches(terms[1..], s) {
      assert s[0..] == s && AllAccepted(atom, s[..0]);
    }
    if s != "" && Accepts(atom, s[0]) && Matches(terms, s[1..]) {
      var k :| 0 <= k <= |s[1..]| && AllAccepted(atom, s[1..][..k]) && Matches(terms[1..], s[1..][k..]);
      assert s[1..][k..] == s[k + 1..];
      var taken := s[..k + 1];
      forall i | 0 <= i < |taken| ensures Accepts(atom, taken[i]) {
        if i > 0 {
          assert taken[i] == s[1..][..k][i - 1];
        }
      }
    }
  }

  lemma {:induction false} TermsMatchGlob(pattern: string, s: string)
    ensures Matches(Terms(pattern), s) <==> GlobMatch(pattern, s, false)
    decreases |pattern|, |s|
  {
    if pattern != "" {
      var terms := Terms(pattern);
      if pattern[0] == '*' {
        var skip := if |pattern| > 1 && pattern[1] == '*' then 2 else 1;
        assert terms[1..] == Terms(pattern[skip..]);
        StarUnfolds(terms, s);
        TermsMatchGlob(pattern[skip..], s);
        if s != "" {
          TermsMatchGlob(pattern, s[1..]);
        }
      } else {
        assert terms[1..] == Terms(pattern[1..]);
        if s != "" {
          TermsMatchGlob(pattern[1..], s[1..]);
        }
      }
    }
  }

  predicate NoLineTerminator(s: string) {
    forall i :: 0 <= i < |s| ==> !IsLineTerminator(s[i])
  }

  lemma {:induction false} LinesDoNotMatter(pattern: string, s: string)
    requires NoLineTerminator(s)
    ensures GlobMatch(pattern, s, true) == GlobMatch(pattern, s, false)
    decreases |pattern|, |s|
  {
    if pattern != "" {
      var skip := if pattern[0] == '*' && |pattern| > 1 && pattern[1] == '*' then 2 else 1;
      LinesDoNotMatter(pattern[skip..], s);
      if s != "" {
        assert !IsLineTerminator(s[0]);
        LinesDoNotMatter(pattern, s[1..]);
        LinesDoNotMatter(pattern[1..], s[1..]);
      }
    }
  }

  /**
   * Compiling preserves meaning: for every pattern, the produced expression tests true on exactly
   * the paths the glob matches, where `**` crosses segments. For a path with a line terminator the
   * only difference is that `**` does not cross it.
   */
  lemma CompilerPreservesMeaning(pattern: string, s: string)
    ensures Test("^" + Compile(pattern) + "$", s) <==> GlobMatch(pattern, s, false)
    ensures NoLineTerminator(s) ==> (Test("^" + Compile(pattern) + "$", s) <==> GlobMatch(pattern, s, true))
  {
    var source := "^" + Compile(pattern) + "$";
    assert source[1..|source| - 1] == Compile(pattern);
    CompiledReadsBack(pattern);
    TermsMatchGlob(pattern, s);
    if NoLineTerminator(s) {
      LinesDoNotMatter(pattern, s);
    }
  }

  /** Where the two part: `**` does not select a name with a newline in it, though `*` does. */
  lemma NewlineStopsDoubleStar()
    ensures !GlobMatch("**", "\n", false) && GlobMatch("**", "\n", true) && GlobMatch("*", "\n", false)
  {
    assert "**"[2..] == "" && "\n"[1..] == "";
    assert !GlobMatch("", "\n", false);
  }

  /** What each wildcard takes by itself, and that a pattern without one takes its own text only. */
  lemma {:induction false} WildcardsExact(s: string, crossLines: bool)
    ensures GlobMatch("*", s, crossLines) <==> forall i :: 0 <= i < |s| ==> s[i] != '/'
    ensures GlobMatch("?", s, crossLines) <==> |s| == 1 && s[0] != '/'
    ensures GlobMatch("**", s, crossLines) <==>
            crossLines || forall i :: 0 <= i < |s| ==> s[i] !in "\n\r\U{2028}\U{2029}"
    decreases |s|
  {
    assert "*"[1..] == "" && "?"[1..] == "" && "**"[2..] == "";
    if s != "" {
      WildcardsExact(s[1..], crossLines);
      assert forall i :: 0 < i < |s| ==> s[i] == s[1..][i - 1];
    }
  }

  lemma {:induction false} PlainPatternExact(pattern: string, s: string, crossLines: bool)
    requires forall i :: 0 <= i < |pattern| ==> pattern[i] != '*' && pattern[i] != '?'
    ensures GlobMatch(pattern, s, crossLines) <==> s == pattern
    decreases |pattern|
  {
    if pattern != "" && s != "" {
      PlainPatternExact(pattern[1..], s[1..], crossLines);
      assert pattern == [pattern[0]] + pattern[1..] && s == [s[0]] + s[1..];
    }
  }

  predicate Seam(a: string, b: string) {
    a == "" || b == "" || a[|a| - 1] != '*' || b[0] != '*'
  }

  lemma {:induction false} PatternsJoin(a: string, b: string, s: string, t: string, crossLines: bool)
    requires Seam(a, b) && GlobMatch(a, s, crossLines) && GlobMatch(b, t, crossLines)
    ensures GlobMatch(a + b, s + t, crossLines)
    decreases |a|, |s|
  {
    if a == "" {
      assert a + b == b && s + t == t;
    } else {
      assert (a + b)[0] == a[0] && (a + b)[1..] == a[1..] + b;
      assert s != "" ==> (s + t)[0] == s[0] && (s + t)[1..] == s[1..] + t;
      if a[0] == '*' && |a| > 1 && a[1] == '*' {
        assert (a + b)[1] == a[1] && (a + b)[2..] == a[2..] + b;
        if GlobMatch(a[2..], s, crossLines) {
          PatternsJoin(a[2..], b, s, t, crossLines);
        } else {
          PatternsJoin(a, b, s[1..], t, crossLines);
        }
      } else if a[0] == '*' {
        assert |a + b| > 1 ==> (a + b)[1] == if |a| > 1 then a[1] else b[0];
        if GlobMatch(a[1..], s, crossLines) {
          PatternsJoin(a[1..], b, s, t, crossLines);
        } else {
          PatternsJoin(a, b, s[1..], t, crossLines);
        }
      } else {
        PatternsJoin(a[1..], b, s[1..], t, crossLines);
      }
    }
  }

  lemma {:induction false} PatternSplits(a: string, b: string, s: string, crossLines: bool) returns (k: nat)
    requires Seam(a, b) && GlobMatch(a + b, s, crossLines)
    ensures k <= |s| && GlobMatch(a, s[..k], crossLines) && GlobMatch(b, s[k..], crossLines)
    decreases |a|, |s|
  {
    k := 0;
    if a == "" {
      assert a + b == b && s[0..] == s;
    } else {
      assert (a + b)[0] == a[0] && (a + b)[1..] == a[1..] + b;
      var double := a[0] == '*' && |a| > 1 && a[1] == '*';
      if double {
        assert (a + b)[1] == a[1] && (a + b)[2..] == a[2..] + b;
      } else if a[0] == '*' {
        assert |a + b| > 1 ==> (a + b)[1] == if |a| > 1 then a[1] else b[0];
      }
      var shorter := if double then a[2..] else a[1..];
      if a[0] == '*' && GlobMatch(shorter + b, s, crossLines) {
        k := PatternSplits(shorter, b, s, crossLines);
      } else {
        var k' := PatternSplits(if a[0] == '*' then a else shorter, b, s[1..], crossLines);
        k := k' + 1;
        assert s[..k][0] == s[0] && s[..k][1..] == s[1..][..k'] && s[k..] == s[1..][k'..];
      }
    }
  }

  /** Parts of a pattern take parts of a path, one after the other, where no two stars meet at the seam. */
  lemma PatternInTwo(a: string, b: string, s: string, crossLines: bool)
    requires Seam(a, b)
    ensures GlobMatch(a + b, s, crossLines) <==>
            exists k :: 0 <= k <= |s| && GlobMatch(a, s[..k], crossLines) && GlobMatch(b, s[k..], crossLines)
  {
    hide GlobMatch;
    if GlobMatch(a + b, s, crossLines) {
      var k := PatternSplits(a, b, s, crossLines);
    }
    forall k | 0 <= k <= |s| && GlobMatch(a, s[..k], crossLines) && GlobMatch(b, s[k..], crossLines)
      ensures GlobMatch(a + b, s, crossLines)
    {
      PatternsJoin(a, b, s[..k], s[k..], crossLines);
      assert s[..k] + s[k..] == s;
    }
  }

  function Slashes(s: string): nat {
    if s == "" then 0 else (if s[0] == '/' then 1 else 0) + Slashes(s[1..])
  }

  predicate HasDoubleStar(pattern: string) {
    exists i :: 0 <= i < |pattern| - 1 && pattern[i] == '*' && pattern[i + 1] == '*'
  }

  /** Without `**` a pattern stays level: it matches only paths with as many separators as it has. */
  lemma {:induction false} SingleStarStaysInSegment(pattern: string, s: string, crossLines: bool)
    requires GlobMatch(pattern, s, crossLines) && !HasDoubleStar(pattern)
    ensures Slashes(s) == Slashes(pattern)
    decreases |pattern|, |s|
  {
    if pattern != "" {
      forall i | 0 <= i < |pattern[1..]| - 1 ensures !(pattern[1..][i] == '*' && pattern[1..][i + 1] == '*') {
        assert pattern[1..][i] == pattern[i + 1] && pattern[1..][i + 1] == pattern[i + 1 + 1];
      }
      if pattern[0] == '*' {
        if GlobMatch(pattern[1..], s, crossLines) {
          SingleStarStaysInSegment(pattern[1..], s, crossLines);
        } else {
          SingleStarStaysInSegment(pattern, s[1..], crossLines);
        }
      } else {
        SingleStarStaysInSegment(pattern[1..], s[1..], crossLines);
      }
    }
  }

  // --------------------------------------------------------------- selection

  predicate MatchesOne(filePath: string, pattern: string) {
    filePath == pattern || pattern + "/" <= filePath || Test("^" + Compile(pattern) + "$", filePath)
  }

  predicate MatchesAny(filePath: string, patterns: seq<string>) {
    patterns == [] || exists i :: 0 <= i < |patterns| && MatchesOne(filePath, patterns[i])
  }

  /** Selection is the glob relation, extended by equality and by naming a folder above. */
  lemma MatchesAnyExact(filePath: string, patterns: seq<string>)
    ensures MatchesAny(filePath, patterns) <==> patterns == [] || Selects(filePath, patterns, false)
    ensures NoLineTerminator(filePath) ==>
              (MatchesAny(filePath, patterns) <==> patterns == [] || Selects(filePath, patterns, true))
  {
    hide GlobMatch, Compile, Test;
    forall i | 0 <= i < |patterns|
      ensures MatchesOne(filePath, patterns[i]) <==> SelectsOne(filePath, patterns[i], false)
      ensures NoLineTerminator(filePath) ==>
                (MatchesOne(filePath, patterns[i]) <==> SelectsOne(filePath, patterns[i], true))
    {
      CompilerPreservesMeaning(patterns[i], filePath);
    }
  }

  /** The path is the pattern, lies in the folder it names, or matches it. */
  predicate SelectsOne(filePath: string, pattern: string, crossLines: bool) {
    filePath == pattern || pattern + "/" <= filePath || GlobMatch(pattern, filePath, crossLines)
  }

  predicate Selects(filePath: string, patterns: seq<string>, crossLines: bool) {
    exists i :: 0 <= i < |patterns| && SelectsOne(filePath, patterns[i], crossLines)
  }
}
