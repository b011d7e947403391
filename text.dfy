/** The JavaScript string built-ins the scorer relies on, with their exact
    semantics: the white-space class `\s` and `trim`, `split(/\s+/)`,
    `split('\n')`, `includes`, `join`, and the number of matches of a global
    regular expression built from a literal word. A string holds one `char`
    per UTF-16 code unit. */
module Text {

  /** The characters that JavaScript's `\s` matches and that
      `String.prototype.trim` removes: WhiteSpace and LineTerminator. */
  predicate IsWhitespace(c: char)
  {
    c == '\t' || c == '\n' || c == '\U{000B}' || c == '\U{000C}' || c == '\r' || c == ' '
    || c == '\U{00A0}' || c == '\U{1680}' || ('\U{2000}' <= c <= '\U{200A}')
    || c == '\U{2028}' || c == '\U{2029}' || c == '\U{202F}' || c == '\U{205F}'
    || c == '\U{3000}' || c == '\U{FEFF}'
  }

  predicate NoWhitespace(s: string)
  {
    forall k :: 0 <= k < |s| ==> !IsWhitespace(s[k])
  }

  predicate AllWhitespace(s: string)
  {
    forall k :: 0 <= k < |s| ==> IsWhitespace(s[k])
  }

  /** A string with no white space at either end (what `trim` returns). */
  predicate IsTrimmed(s: string)
  {
    s == [] || (!IsWhitespace(s[0]) && !IsWhitespace(s[|s| - 1]))
  }

  /** The syntax characters of a JavaScript regular expression. */
  predicate IsRegexMeta(c: char)
  {
    c == '^' || c == '$' || c == '\\' || c == '.' || c == '*' || c == '+' || c == '?'
    || c == '(' || c == ')' || c == '[' || c == ']' || c == '{' || c == '}' || c == '|'
  }

  /** A string that `new RegExp(s)` reads as the literal string itself. */
  predicate IsRegexLiteral(s: string)
  {
    forall k :: 0 <= k < |s| ==> !IsRegexMeta(s[k])
  }

  /** The number of white-space characters at the front of `s`. */
  function LeadingWhitespace(s: string): (n: nat)
    ensures n <= |s|
    ensures AllWhitespace(s[..n])
    ensures n < |s| ==> !IsWhitespace(s[n])
  {
    if s != [] && IsWhitespace(s[0]) then 1 + LeadingWhitespace(s[1..]) else 0
  }

  /** The number of white-space characters at the end of `s`. */
  function TrailingWhitespace(s: string): (n: nat)
    ensures n <= |s|
    ensures AllWhitespace(s[|s| - n..])
    ensures n < |s| ==> !IsWhitespace(s[|s| - 1 - n])
  {
    if s != [] && IsWhitespace(s[|s| - 1]) then 1 + TrailingWhitespace(s[..|s| - 1]) else 0
  }

  /** The index of the first white-space character of `s`, or `|s|`. */
  function FirstWhitespace(s: string): (i: nat)
    ensures i <= |s|
    ensures NoWhitespace(s[..i])
    ensures i < |s| ==> IsWhitespace(s[i])
  {
    if s == [] || IsWhitespace(s[0]) then 0 else 1 + FirstWhitespace(s[1..])
  }

  /** The index just past the run of white space that starts at `i`. */
  function RunEnd(s: string, i: nat): (j: nat)
    requires i <= |s|
    ensures i <= j <= |s|
    ensures forall k :: i <= k < j ==> IsWhitespace(s[k])
    ensures j < |s| ==> !IsWhitespace(s[j])
    decreases |s| - i
  {
    if i < |s| && IsWhitespace(s[i]) then RunEnd(s, i + 1) else i
  }

  /** The index just past the first run of white space of `s`. */
  function GapEnd(s: string): (j: nat)
    requires FirstWhitespace(s) < |s|
    ensures FirstWhitespace(s) < j <= |s|
    ensures forall k :: FirstWhitespace(s) <= k < j ==> IsWhitespace(s[k])
    ensures j < |s| ==> !IsWhitespace(s[j])
  {
    RunEnd(s, FirstWhitespace(s))
  }

  /** `s.trim()`: `s` without its leading and trailing white space. */
  function Trim(s: string): (r: string)
    ensures IsTrimmed(r)
    ensures r == [] <==> AllWhitespace(s)
    ensures IsTrimmed(s) ==> r == s
    ensures |r| <= |s|
    ensures (s == [] || !IsWhitespace(s[0])) ==> r == s[..|r|]
  {
    var t := s[LeadingWhitespace(s)..];
    t[..|t| - TrailingWhitespace(t)]
  }

  /** `trim` returns the part of `s` between its leading and its trailing
      white space: `s` is white space, then `Trim(s)`, then white space. */
  lemma TrimIsMiddle(s: string) returns (i: nat)
    ensures i + |Trim(s)| <= |s| && Trim(s) == s[i..i + |Trim(s)|]
    ensures AllWhitespace(s[..i]) && AllWhitespace(s[i + |Trim(s)|..])
  {
    i := LeadingWhitespace(s);
    var t := s[i..];
    var n := |t| - TrailingWhitespace(t);
    assert Trim(s) == t[..n] && |Trim(s)| == n;
    assert t[..n] == s[i..i + n];
    assert s[i + n..] == t[n..];
  }

  /** `s` with every white-space character removed. */
  function RemoveWhitespace(s: string): (r: string)
    ensures NoWhitespace(r)
  {
    if s == [] then []
    else (if IsWhitespace(s[0]) then [] else [s[0]]) + RemoveWhitespace(s[1..])
  }

  /** `s.split(/\s+/)`: the pieces between maximal runs of white space. There is
      always at least one piece; the first is empty when `s` starts with white
      space (or is empty) and the last is empty when `s` ends with white space. */
  function SplitWhitespace(s: string): (pieces: seq<string>)
    ensures |pieces| >= 1
    ensures forall k :: 0 <= k < |pieces| ==> NoWhitespace(pieces[k])
    decreases |s|
  {
    if FirstWhitespace(s) == |s| then [s]
    else [s[..FirstWhitespace(s)]] + SplitWhitespace(s[GapEnd(s)..])
  }

  /** `s.split(sep)` for a one-character separator: the pieces between the
      occurrences of `sep`, one more than there are occurrences. */
  function SplitOn(s: string, sep: char): (pieces: seq<string>)
    ensures |pieces| >= 1
    ensures forall k :: 0 <= k < |pieces| ==> sep !in pieces[k]
  {
    if s == [] then [[]]
    else
      var rest := SplitOn(s[1..], sep);
      if s[0] == sep then [[]] + rest
      else [[s[0]] + rest[0]] + rest[1..]
  }

  /** `pieces.join(sep)`. */
  function Join(pieces: seq<string>, sep: string): (r: string)
    ensures pieces != [] ==> IsPrefix(pieces[0], r)
  {
    if pieces == [] then []
    else if |pieces| == 1 then pieces[0]
    else pieces[0] + sep + Join(pieces[1..], sep)
  }

  /** `p` is a prefix of `s` (`s.startsWith(p)`). */
  predicate IsPrefix(p: string, s: string)
  {
    |p| <= |s| && s[..|p|] == p
  }

  /** `s.includes(p)`: `p` occurs in `s` at some position. */
  predicate Contains(s: string, p: string)
    ensures Contains(s, p) ==> |p| <= |s|
  {
    IsPrefix(p, s) || (s != [] && Contains(s[1..], p))
  }

  /** `(s.match(new RegExp(p, 'g')) || []).length` for a non-empty literal `p`:
      the matches found scanning left to right, each search resuming after the
      previous match, so matches never overlap. */
  function CountOccurrences(s: string, p: string): (n: nat)
    requires p != []
    ensures n * |p| <= |s|
    ensures n == 0 <==> !Contains(s, p)
    decreases |s|
  {
    if |s| < |p| then 0
    else if s[..|p|] == p then
      var m := CountOccurrences(s[|p|..], p);
      assert (1 + m) * |p| == |p| + m * |p|;
      1 + m
    else CountOccurrences(s[1..], p)
  }

  predicate NonEmptyEntries(entries: seq<string>)
  {
    forall k :: 0 <= k < |entries| ==> entries[k] != []
  }

  /** The occurrence counts of every entry in `s`, added up in the order of
      `entries`. An entry contributes its own count even when it overlaps
      another entry's matches. */
  function SumOccurrences(s: string, entries: seq<string>): (n: nat)
    requires NonEmptyEntries(entries)
    ensures n == 0 <==> forall k :: 0 <= k < |entries| ==> !Contains(s, entries[k])
  {
    if entries == [] then 0
    else
      var init := entries[..|entries| - 1];
      assert forall k :: 0 <= k < |init| ==> init[k] == entries[k];
      SumOccurrences(s, init) + CountOccurrences(s, entries[|entries| - 1])
  }

  /** `s.filter(keep)`: the elements of `s` that satisfy `keep`, in order. */
  function Filter<T>(s: seq<T>, keep: T -> bool): (r: seq<T>)
    ensures |r| <= |s|
    ensures forall k :: 0 <= k < |r| ==> keep(r[k])
  {
    if s == [] then []
    else (if keep(s[0]) then [s[0]] else []) + Filter(s[1..], keep)
  }

  /** `filter` keeps every occurrence of an element that passes the test
      and none of one that fails it. */
  lemma {:induction false} FilterCounts<T(!new)>(s: seq<T>, keep: T -> bool)
    ensures forall x :: multiset(Filter(s, keep))[x] == if keep(x) then multiset(s)[x] else 0
    decreases |s|
  {
    if s != [] {
      FilterCons(s[0], s[1..], keep);
      FilterCounts(s[1..], keep);
      assert s == [s[0]] + s[1..];
    }
  }

  /** Filtering a concatenation filters each part and keeps their order. */
  lemma {:induction false} FilterAppend<T>(a: seq<T>, b: seq<T>, keep: T -> bool)
    ensures Filter(a + b, keep) == Filter(a, keep) + Filter(b, keep)
    decreases |a|
  {
    if a == [] {
      assert a + b == b;
    } else {
      assert a == [a[0]] + a[1..] && a + b == [a[0]] + (a[1..] + b);
      FilterCons(a[0], a[1..], keep);
      FilterCons(a[0], a[1..] + b, keep);
      FilterAppend(a[1..], b, keep);
    }
  }

  /** The kept elements come from `s`, and every element of `s` that passes
      the test is kept. */
  lemma FilterMembers<T(!new)>(s: seq<T>, keep: T -> bool)
    ensures forall x :: x in Filter(s, keep) <==> x in s && keep(x)
  {
    FilterCounts(s, keep);
  }

  lemma FilterCons<T>(x: T, s: seq<T>, keep: T -> bool)
    ensures Filter([x] + s, keep) == (if keep(x) then [x] else []) + Filter(s, keep)
  {
    assert ([x] + s)[0] == x && ([x] + s)[1..] == s;
  }

  // ---------------------------------------------------------------------
  // Lemmas

  /** Joining the pieces of `split(sep)` with `sep` gives back the string. */
  lemma {:induction false} SplitOnJoin(s: string, sep: char)
    ensures Join(SplitOn(s, sep), [sep]) == s
    decreases |s|
  {
    if s != [] {
      var rest := SplitOn(s[1..], sep);
      SplitOnJoin(s[1..], sep);
      if s[0] == sep {
        assert ([[]] + rest)[1..] == rest;
      } else {
        SplitOnJoinStep(s, sep);
      }
      assert s == [s[0]] + s[1..];
    }
  }

  /** A character that is not the separator joins the first piece. */
  lemma {:induction false} SplitOnJoinStep(s: string, sep: char)
    requires s != [] && s[0] != sep
    ensures Join(SplitOn(s, sep), [sep]) == [s[0]] + Join(SplitOn(s[1..], sep), [sep])
  {
    var rest := SplitOn(s[1..], sep);
    var first := [s[0]] + rest[0];
    assert SplitOn(s, sep) == [first] + rest[1..];
    if |rest| == 1 {
      assert [first] + rest[1..] == [first];
    } else {
      JoinCons(first, rest[1..], [sep]);
      JoinCons(rest[0], rest[1..], [sep]);
      assert rest == [rest[0]] + rest[1..];
    }
  }

  lemma {:induction false} RemoveWhitespaceAppend(a: string, b: string)
    ensures RemoveWhitespace(a + b) == RemoveWhitespace(a) + RemoveWhitespace(b)
    decreases |a|
  {
    if a != [] {
      assert (a + b)[1..] == a[1..] + b;
      RemoveWhitespaceAppend(a[1..], b);
    } else {
      assert a + b == b;
    }
  }

  lemma {:induction false} RemoveWhitespaceNone(s: string)
    requires NoWhitespace(s)
    ensures RemoveWhitespace(s) == s
    decreases |s|
  {
    if s != [] {
      RemoveWhitespaceNone(s[1..]);
    }
  }

  lemma {:induction false} RemoveWhitespaceAll(s: string)
    requires AllWhitespace(s)
    ensures RemoveWhitespace(s) == []
    decreases |s|
  {
    if s != [] {
      RemoveWhitespaceAll(s[1..]);
    }
  }

  /** The pieces of `split(/\s+/)` put back together without separators
      (`join('')`) are exactly the non-white-space characters of `s`. */
  lemma {:induction false} SplitWhitespaceConcat(s: string)
    ensures Join(SplitWhitespace(s), []) == RemoveWhitespace(s)
    decreases |s|
  {
    var i := FirstWhitespace(s);
    if i == |s| {
      assert s[..i] == s;
      RemoveWhitespaceNone(s);
    } else {
      var j := GapEnd(s);
      RemoveWhitespaceWord(s, i, j);
      SplitWhitespaceConcat(s[j..]);
      JoinCons(s[..i], SplitWhitespace(s[GapEnd(s)..]), []);
      assert s[..i] + [] == s[..i];
    }
  }

  /** Removing white space from a word, a run of white space and a rest. */
  lemma {:induction false} RemoveWhitespaceWord(s: string, i: nat, j: nat)
    requires i <= j <= |s| && NoWhitespace(s[..i])
    requires forall k :: i <= k < j ==> IsWhitespace(s[k])
    ensures RemoveWhitespace(s) == s[..i] + RemoveWhitespace(s[j..])
  {
    var head, run, tail := s[..i], s[i..j], s[j..];
    assert AllWhitespace(run);
    assert s == head + (run + tail);
    RemoveWhitespaceAppend(head, run + tail);
    RemoveWhitespaceAppend(run, tail);
    RemoveWhitespaceNone(head);
    RemoveWhitespaceAll(run);
  }

  /** Joining a head onto at least one more piece puts the separator after it. */
  lemma {:induction false} JoinCons(head: string, rest: seq<string>, sep: string)
    requires |rest| >= 1
    ensures Join([head] + rest, sep) == head + sep + Join(rest, sep)
  {
    var pieces := [head] + rest;
    assert |pieces| > 1 && pieces[0] == head && pieces[1..] == rest;
  }

  /** `pieces[0] + gaps[0] + pieces[1] + … + gaps[|gaps| - 1] + pieces[|gaps|]`. */
  function Interleave(pieces: seq<string>, gaps: seq<string>): string
    requires |pieces| == |gaps| + 1
  {
    if gaps == [] then pieces[0]
    else pieces[0] + gaps[0] + Interleave(pieces[1..], gaps[1..])
  }

  /** A separator that `split(/\s+/)` removes: a non-empty run of white space. */
  predicate IsGap(g: string)
  {
    g != [] && AllWhitespace(g)
  }

  /** `split(/\s+/)` cuts at maximal runs of white space: `s` is the pieces
      with a non-empty run of white space between each two of them. */
  lemma {:induction false} SplitWhitespaceRebuild(s: string) returns (gaps: seq<string>)
    ensures |gaps| + 1 == |SplitWhitespace(s)|
    ensures forall k :: 0 <= k < |gaps| ==> IsGap(gaps[k])
    ensures Interleave(SplitWhitespace(s), gaps) == s
    decreases |s|
  {
    if FirstWhitespace(s) == |s| {
      gaps := [];
      assert s[..FirstWhitespace(s)] == s;
    } else {
      var rest := SplitWhitespaceRebuild(s[GapEnd(s)..]);
      gaps := SplitWhitespaceRebuildStep(s, rest);
    }
  }

  /** One step of `SplitWhitespaceRebuild`: the first piece and the first run
      of white space put in front of the rebuilt rest. */
  lemma SplitWhitespaceRebuildStep(s: string, rest: seq<string>) returns (gaps: seq<string>)
    requires FirstWhitespace(s) < |s|
    requires |rest| + 1 == |SplitWhitespace(s[GapEnd(s)..])|
    requires forall k :: 0 <= k < |rest| ==> IsGap(rest[k])
    requires Interleave(SplitWhitespace(s[GapEnd(s)..]), rest) == s[GapEnd(s)..]
    ensures |gaps| + 1 == |SplitWhitespace(s)|
    ensures forall k :: 0 <= k < |gaps| ==> IsGap(gaps[k])
    ensures Interleave(SplitWhitespace(s), gaps) == s
  {
    var i, j := FirstWhitespace(s), GapEnd(s);
    var run := SplitWhitespaceCut(s);
    gaps := [run] + rest;
    var pieces := SplitWhitespace(s[j..]);
    assert SplitWhitespace(s) == [s[..i]] + pieces;
    calc {
      Interleave(SplitWhitespace(s), gaps);
      Interleave([s[..i]] + pieces, [run] + rest);
      { InterleaveCons(s[..i], pieces, run, rest); }
      s[..i] + run + Interleave(pieces, rest);
      s[..i] + run + s[j..];
    }
    assert forall k :: 0 < k < |gaps| ==> gaps[k] == rest[k - 1];
  }

  /** The string cut at its first run of white space. */
  lemma SplitWhitespaceCut(s: string) returns (run: string)
    requires FirstWhitespace(s) < |s|
    ensures run == s[FirstWhitespace(s)..GapEnd(s)] && IsGap(run)
    ensures s == s[..FirstWhitespace(s)] + run + s[GapEnd(s)..]
  {
    var i, j := FirstWhitespace(s), GapEnd(s);
    run := s[i..j];
    assert forall k :: 0 <= k < |run| ==> run[k] == s[i + k];
    assert s[..i] + run == s[..j];
    assert s[..j] + s[j..] == s;
  }

  lemma InterleaveCons(piece: string, pieces: seq<string>, gap: string, gaps: seq<string>)
    requires |pieces| == |gaps| + 1
    ensures Interleave([piece] + pieces, [gap] + gaps) == piece + gap + Interleave(pieces, gaps)
  {
    assert ([piece] + pieces)[1..] == pieces && ([gap] + gaps)[1..] == gaps;
  }

  /** The first piece is empty exactly when `s` is empty or starts with
      white space. */
  lemma SplitWhitespaceFirst(s: string)
    ensures SplitWhitespace(s)[0] == [] <==> s == [] || IsWhitespace(s[0])
  {
    if FirstWhitespace(s) == |s| {
      assert SplitWhitespace(s) == [s];
    } else {
      assert SplitWhitespace(s)[0] == s[..FirstWhitespace(s)];
    }
  }

  /** The last piece is empty exactly when `s` is empty or ends with white
      space. */
  lemma {:induction false} SplitWhitespaceLast(s: string)
    ensures var pieces := SplitWhitespace(s);
            pieces[|pieces| - 1] == [] <==> s == [] || IsWhitespace(s[|s| - 1])
    decreases |s|
  {
    var i := FirstWhitespace(s);
    if i == |s| {
      assert SplitWhitespace(s) == [s];
      if s != [] {
        assert s[..i][|s| - 1] == s[|s| - 1];
      }
    } else {
      var j := GapEnd(s);
      var rest := SplitWhitespace(s[j..]);
      SplitWhitespaceLast(s[j..]);
      assert SplitWhitespace(s) == [s[..i]] + rest;
      if j < |s| {
        assert s[j..][|s[j..]| - 1] == s[|s| - 1];
      }
    }
  }

  /** Every piece but the first and the last is non-empty. */
  lemma {:induction false} SplitWhitespaceInner(s: string)
    ensures var pieces := SplitWhitespace(s);
            forall k :: 0 < k < |pieces| - 1 ==> pieces[k] != []
    decreases |s|
  {
    var i := FirstWhitespace(s);
    if i < |s| {
      var j := GapEnd(s);
      var rest := SplitWhitespace(s[j..]);
      SplitWhitespaceInner(s[j..]);
      assert SplitWhitespace(s) == [s[..i]] + rest;
      if j < |s| {
        SplitWhitespaceFirst(s[j..]);
        assert s[j..][0] == s[j];
      } else {
        assert s[j..] == [];
      }
    }
  }

  /** A trimmed non-empty string splits into non-empty pieces only. */
  lemma {:induction false} SplitTrimmedPiecesNonEmpty(s: string)
    requires s != [] && IsTrimmed(s)
    ensures forall k :: 0 <= k < |SplitWhitespace(s)| ==> SplitWhitespace(s)[k] != []
    decreases |s|
  {
    var i := FirstWhitespace(s);
    if i < |s| {
      var j := GapEnd(s);
      assert s[j..][0] == s[j];
      assert s[j..][|s[j..]| - 1] == s[|s| - 1];
      SplitTrimmedPiecesNonEmpty(s[j..]);
    }
  }

  lemma {:induction false} ContainsExtendRight(a: string, b: string, p: string)
    requires Contains(a, p)
    ensures Contains(a + b, p)
    decreases |a|
  {
    if !IsPrefix(p, a) {
      assert (a + b)[1..] == a[1..] + b;
      ContainsExtendRight(a[1..], b, p);
    } else {
      assert (a + b)[..|p|] == a[..|p|];
    }
  }

  lemma {:induction false} ContainsExtendLeft(a: string, b: string, p: string)
    requires Contains(b, p)
    ensures Contains(a + b, p)
    decreases |a|
  {
    if a == [] {
      assert a + b == b;
    } else {
      assert (a + b)[1..] == a[1..] + b;
      ContainsExtendLeft(a[1..], b, p);
    }
  }

  /** Whatever occurs in a piece of `split(/\s+/)` occurs in the string. */
  lemma {:induction false} SplitWhitespacePieceContains(s: string, k: nat, p: string)
    requires k < |SplitWhitespace(s)| && Contains(SplitWhitespace(s)[k], p)
    ensures Contains(s, p)
    decreases |s|
  {
    var i := FirstWhitespace(s);
    if i == |s| {
      assert SplitWhitespace(s) == [s];
    } else {
      var j := GapEnd(s);
      var rest := SplitWhitespace(s[j..]);
      if k == 0 {
        assert Contains(s[..i], p) by {
          assert ([s[..i]] + rest)[0] == s[..i];
        }
        ContainsPrefix(s, i, p);
      } else {
        assert Contains(rest[k - 1], p) by {
          assert ([s[..i]] + rest)[k] == rest[k - 1];
        }
        SplitWhitespacePieceContains(s[j..], k - 1, p);
        ContainsSuffix(s, j, p);
      }
    }
  }

  lemma ContainsPrefix(s: string, i: nat, p: string)
    requires i <= |s| && Contains(s[..i], p)
    ensures Contains(s, p)
  {
    ContainsExtendRight(s[..i], s[i..], p);
    assert s[..i] + s[i..] == s;
  }

  lemma ContainsSuffix(s: string, j: nat, p: string)
    requires j <= |s| && Contains(s[j..], p)
    ensures Contains(s, p)
  {
    ContainsExtendLeft(s[..j], s[j..], p);
    assert s[..j] + s[j..] == s;
  }

  /** Matches of one word never overlap: `aaa` holds one `aa`, not two. */
  lemma MatchesDoNotOverlap()
    ensures CountOccurrences("aaa", "aa") == 1
  {
    var s := "aaa";
    assert s[..2] == "aa" && s[2..] == "a";
  }

  // ---------------------------------------------------------------------
  // The global match count is the largest number of disjoint matches

  /** `p` occurs in `s` starting at index `i`. */
  predicate OccursAt(s: string, p: string, i: int)
  {
    0 <= i && i + |p| <= |s| && s[i..i + |p|] == p
  }

  /** `pos` lists occurrences of `p` in `s`, each one ending before the next
      one starts. */
  predicate DisjointOccurrences(s: string, p: string, pos: seq<int>)
  {
    (forall k :: 0 <= k < |pos| ==> OccursAt(s, p, pos[k]))
    && (forall j, k :: 0 <= j < k < |pos| ==> pos[j] + |p| <= pos[k])
  }

  /** Every position of `pos` moved by `d`. */
  function Shift(pos: seq<int>, d: int): (r: seq<int>)
    ensures |r| == |pos|
    ensures forall k :: 0 <= k < |pos| ==> r[k] == pos[k] + d
  {
    seq(|pos|, k requires 0 <= k < |pos| => pos[k] + d)
  }

  /** An occurrence in a suffix is an occurrence in the whole string. */
  lemma OccursInSuffix(s: string, p: string, d: nat, i: int)
    requires d <= |s| && i >= 0
    ensures OccursAt(s[d..], p, i) <==> OccursAt(s, p, i + d)
  {
    if i + |p| <= |s| - d {
      assert s[d..][i..i + |p|] == s[i + d..i + d + |p|];
    }
  }

  lemma ShiftRight(s: string, p: string, d: nat, pos: seq<int>)
    requires d <= |s| && DisjointOccurrences(s[d..], p, pos)
    ensures DisjointOccurrences(s, p, Shift(pos, d))
  {
    forall k | 0 <= k < |pos|
      ensures OccursAt(s, p, Shift(pos, d)[k])
    {
      OccursInSuffix(s, p, d, pos[k]);
    }
  }

  lemma ShiftLeft(s: string, p: string, d: nat, pos: seq<int>)
    requires d <= |s| && DisjointOccurrences(s, p, pos)
    requires forall k :: 0 <= k < |pos| ==> pos[k] >= d
    ensures DisjointOccurrences(s[d..], p, Shift(pos, -(d as int)))
  {
    var moved := Shift(pos, -(d as int));
    forall k | 0 <= k < |pos|
      ensures OccursAt(s[d..], p, moved[k])
    {
      OccursInSuffix(s, p, d, pos[k] - d);
    }
  }

  /** The left-to-right scan finds `CountOccurrences(s, p)` disjoint matches. */
  lemma {:induction false} CountOccurrencesAttained(s: string, p: string) returns (pos: seq<int>)
    requires p != []
    ensures DisjointOccurrences(s, p, pos) && |pos| == CountOccurrences(s, p)
    decreases |s|
  {
    if |s| < |p| {
      pos := [];
    } else if s[..|p|] == p {
      var rest := CountOccurrencesAttained(s[|p|..], p);
      ShiftRight(s, p, |p|, rest);
      pos := [0] + Shift(rest, |p|);
      assert OccursAt(s, p, 0);
      assert forall k :: 0 < k < |pos| ==> pos[k] == Shift(rest, |p|)[k - 1];
    } else {
      var rest := CountOccurrencesAttained(s[1..], p);
      ShiftRight(s, p, 1, rest);
      pos := Shift(rest, 1);
    }
  }

  /** No list of disjoint matches is longer than the count of the scan. */
  lemma {:induction false} CountOccurrencesMaximal(s: string, p: string, pos: seq<int>)
    requires p != [] && DisjointOccurrences(s, p, pos)
    ensures |pos| <= CountOccurrences(s, p)
    decreases |s|
  {
    if pos != [] {
      assert OccursAt(s, p, pos[0]);
      if s[..|p|] == p {
        var tail := pos[1..];
        assert forall k :: 0 <= k < |tail| ==> tail[k] == pos[k + 1];
        ShiftLeft(s, p, |p|, tail);
        CountOccurrencesMaximal(s[|p|..], p, Shift(tail, -|p|));
      } else {
        assert pos[0] != 0;
        ShiftLeft(s, p, 1, pos);
        CountOccurrencesMaximal(s[1..], p, Shift(pos, -1));
      }
    }
  }
}
