/**
 * The string operations the handlers use: Python's `str.lower`, `str.strip`,
 * `str.split()`, `str.split('@')[0]` and `str.startswith`, and SQL's
 * `lower(trim(...))`.
 */
module Text {

  /** The characters Python's `str.isspace` accepts (what `strip()` and `split()` remove). */
  const PyWhitespace: set<char> := {
    ' ', '\t', '\n', '\r', '\U{B}', '\U{C}', '\U{1C}', '\U{1D}', '\U{1E}', '\U{1F}',
    '\U{85}', '\U{A0}', '\U{1680}', '\U{2000}', '\U{2001}', '\U{2002}', '\U{2003}',
    '\U{2004}', '\U{2005}', '\U{2006}', '\U{2007}', '\U{2008}', '\U{2009}', '\U{200A}',
    '\U{2028}', '\U{2029}', '\U{202F}', '\U{205F}', '\U{3000}'
  }

  /** What PostgreSQL's one-argument `trim` removes: spaces only. */
  const SqlSpace: set<char> := {' '}

  function LowerChar(c: char): char
  {
    if 'A' <= c <= 'Z' then (c as int - 'A' as int + 'a' as int) as char else c
  }

  /** Lower-cases the ASCII letters and leaves every other character alone. */
  function Lower(s: string): (r: string)
    ensures |r| == |s|
    ensures forall i :: 0 <= i < |s| ==> r[i] == LowerChar(s[i])
  {
    seq(|s|, i requires 0 <= i < |s| => LowerChar(s[i]))
  }

  function TrimStart(s: string, drop: set<char>): (r: string)
    ensures |r| <= |s| && r == s[|s| - |r|..]
    ensures forall i :: 0 <= i < |s| - |r| ==> s[i] in drop
    ensures |r| == 0 || r[0] !in drop
  {
    if |s| == 0 || s[0] !in drop then s else TrimStart(s[1..], drop)
  }

  function TrimEnd(s: string, drop: set<char>): (r: string)
    ensures |r| <= |s| && r == s[..|r|]
    ensures forall i :: |r| <= i < |s| ==> s[i] in drop
    ensures |r| == 0 || r[|r| - 1] !in drop
  {
    if |s| == 0 || s[|s| - 1] !in drop then s else TrimEnd(s[..|s| - 1], drop)
  }

  /**
   * Removes the leading and trailing characters that belong to `drop`:
   * `Trim(s, PyWhitespace)` is Python's `s.strip()`, `Trim(s, SqlSpace)` is
   * PostgreSQL's `trim(s)`.
   */
  function Trim(s: string, drop: set<char>): (r: string)
    ensures |r| <= |s|
    ensures |r| == 0 || (r[0] !in drop && r[|r| - 1] !in drop)
    ensures |r| == 0 <==> forall i :: 0 <= i < |s| ==> s[i] in drop
  {
    TrimEnds(s, drop);
    TrimEnd(TrimStart(s, drop), drop)
  }

  lemma TrimEnds(s: string, drop: set<char>)
    ensures var r := TrimEnd(TrimStart(s, drop), drop);
            && (|r| == 0 || r[0] !in drop)
            && (|r| == 0 <==> forall i :: 0 <= i < |s| ==> s[i] in drop)
  {
    var t := TrimStart(s, drop);
    var r := TrimEnd(t, drop);
    if |t| != 0 {
      assert t[0] == s[|s| - |t|] && t[0] !in drop;
      assert |r| != 0;
      assert r[0] == t[0];
    }
  }

  lemma {:induction false} TrimNoop(s: string, drop: set<char>)
    requires |s| == 0 || (s[0] !in drop && s[|s| - 1] !in drop)
    ensures Trim(s, drop) == s
  {
  }

  /** Stripping twice is stripping once. */
  lemma {:induction false} TrimIdempotent(s: string, drop: set<char>)
    ensures Trim(Trim(s, drop), drop) == Trim(s, drop)
  {
    var t := Trim(s, drop);
    assert |t| == 0 || (t[0] !in drop && t[|t| - 1] !in drop);
    TrimNoop(t, drop);
  }

  predicate StartsWith(s: string, prefix: string)
  {
    |prefix| <= |s| && s[..|prefix|] == prefix
  }

  /** `s.split(c)[0]`: everything before the first `c`, or all of `s` when there is none. */
  function BeforeFirst(s: string, c: char): (r: string)
    ensures |r| <= |s| && r == s[..|r|]
    ensures c !in r
    ensures |r| < |s| ==> s[|r|] == c
  {
    if s == [] || s[0] == c then [] else [s[0]] + BeforeFirst(s[1..], c)
  }

  /** Splitting at the first separator gives back the part before it. */
  lemma {:induction false} BeforeFirstOfJoin(head: string, c: char, tail: string)
    requires c !in head
    ensures BeforeFirst(head + [c] + tail, c) == head
  {
    if head != [] {
      assert (head + [c] + tail)[1..] == head[1..] + [c] + tail;
      BeforeFirstOfJoin(head[1..], c, tail);
    }
  }

  // ------------------------------------------------------------------
  // str.split() with no argument: runs of whitespace separate words and
  // leading or trailing whitespace yields no empty word. `space` is the
  // set of separators; `str.split()` uses PyWhitespace.
  // ------------------------------------------------------------------

  predicate IsWord(w: string, space: set<char>)
  {
    |w| != 0 && forall i :: 0 <= i < |w| ==> w[i] !in space
  }

  /** The longest prefix free of separators. */
  function TakeWord(s: string, space: set<char>): (w: string)
    ensures |w| <= |s| && w == s[..|w|]
    ensures forall i :: 0 <= i < |w| ==> w[i] !in space
    ensures |w| < |s| ==> s[|w|] in space
  {
    if |s| == 0 || s[0] in space then [] else [s[0]] + TakeWord(s[1..], space)
  }

  function SplitWords(s: string, space: set<char>): seq<string>
    decreases |s|
  {
    var t := TrimStart(s, space);
    if |t| == 0 then []
    else
      var w := TakeWord(t, space);
      assert |w| != 0;
      [w] + SplitWords(t[|w|..], space)
  }

  /** Every piece `str.split()` returns is a non-empty run without separators. */
  lemma {:induction false} SplitWordsAreWords(s: string, space: set<char>)
    ensures forall i :: 0 <= i < |SplitWords(s, space)| ==> IsWord(SplitWords(s, space)[i], space)
    decreases |s|
  {
    var t := TrimStart(s, space);
    if |t| != 0 {
      var w := TakeWord(t, space);
      var rest := SplitWords(t[|w|..], space);
      SplitWordsAreWords(t[|w|..], space);
      assert SplitWords(s, space) == [w] + rest;
      assert IsWord(w, space);
      forall i | 0 <= i < |[w] + rest| ensures IsWord(([w] + rest)[i], space) {
        if i > 0 {
          assert ([w] + rest)[i] == rest[i - 1];
        }
      }
    }
  }

  /** `" ".join(ws)`. */
  function JoinWords(ws: seq<string>): string
  {
    if ws == [] then [] else if |ws| == 1 then ws[0] else ws[0] + (" " + JoinWords(ws[1..]))
  }

  lemma {:induction false} TakeWordOfJoin(w: string, rest: string, space: set<char>)
    requires IsWord(w, space)
    requires |rest| == 0 || rest[0] in space
    ensures TakeWord(w + rest, space) == w
  {
    if |w| == 1 {
      assert (w + rest)[1..] == rest;
    } else {
      assert (w + rest)[1..] == w[1..] + rest;
      TakeWordOfJoin(w[1..], rest, space);
    }
  }

  lemma SplitWordsCons(w: string, rest: string, space: set<char>)
    requires IsWord(w, space)
    requires |rest| == 0 || rest[0] in space
    ensures SplitWords(w + rest, space) == [w] + SplitWords(rest, space)
  {
    var s := w + rest;
    assert s[0] == w[0];
    assert TrimStart(s, space) == s;
    TakeWordOfJoin(w, rest, space);
    assert s[|w|..] == rest;
  }

  lemma SplitWordsSpace(t: string, space: set<char>)
    requires ' ' in space
    ensures SplitWords(" " + t, space) == SplitWords(t, space)
  {
    assert (" " + t)[1..] == t;
    assert TrimStart(" " + t, space) == TrimStart(t, space);
  }

  lemma JoinWordsCons(ws: seq<string>)
    requires |ws| >= 2
    ensures JoinWords(ws) == ws[0] + (" " + JoinWords(ws[1..]))
  {
  }

  lemma SplitNoWords(ws: seq<string>, space: set<char>)
    requires |ws| == 0
    ensures SplitWords(JoinWords(ws), space) == ws
  {
    assert TrimStart([], space) == [];
  }

  lemma SplitOneWord(ws: seq<string>, space: set<char>)
    requires |ws| == 1 && IsWord(ws[0], space)
    ensures SplitWords(JoinWords(ws), space) == ws
  {
    var w := ws[0];
    assert ws == [w] + [];
    assert JoinWords(ws) == w + [];
    assert SplitWords([], space) == [] by {
      assert TrimStart([], space) == [];
    }
    SplitWordsCons(w, [], space);
  }

  /** Splitting words joined by single spaces gives the words back. */
  lemma {:induction false} SplitJoin(ws: seq<string>, space: set<char>)
    requires ' ' in space
    requires forall i :: 0 <= i < |ws| ==> IsWord(ws[i], space)
    ensures SplitWords(JoinWords(ws), space) == ws
  {
    if |ws| == 0 {
      SplitNoWords(ws, space);
    } else if |ws| == 1 {
      SplitOneWord(ws, space);
    } else {
      var rest := ws[1..];
      assert ws == [ws[0]] + rest;
      assert forall i :: 0 <= i < |rest| ==> IsWord(rest[i], space) by {
        assert forall i :: 0 <= i < |rest| ==> rest[i] == ws[i + 1];
      }
      var tail := JoinWords(rest);
      assert SplitWords(JoinWords(ws), space) == [ws[0]] + SplitWords(tail, space) by {
        JoinWordsCons(ws);
        SplitWordsCons(ws[0], " " + tail, space);
        SplitWordsSpace(tail, space);
      }
      SplitJoin(rest, space);
    }
  }
}
