/**
 * The few `java.lang.String` operations the parsers rely on, stated over `seq<char>`:
 * `trim`, `isEmpty`, `split` with a one-character pattern (with and without a limit),
 * `contains`, `startsWith`, `endsWith` and `toLowerCase`.
 */
module JavaText {

  /** `String.trim` strips every leading and trailing character at or below U+0020. */
  predicate IsTrimmable(c: char) {
    c <= ' '
  }

  function TrimStart(s: string): (r: string)
    ensures |r| <= |s|
    ensures r == [] || !IsTrimmable(r[0])
  {
    if |s| > 0 && IsTrimmable(s[0]) then TrimStart(s[1..]) else s
  }

  function TrimEnd(s: string): (r: string)
    ensures |r| <= |s|
    ensures r == [] || (r[0] == s[0] && !IsTrimmable(r[|r| - 1]))
  {
    if |s| > 0 && IsTrimmable(s[|s| - 1]) then TrimEnd(s[..|s| - 1]) else s
  }

  /** Java's `s.trim()`. */
  function Trim(s: string): (r: string)
    ensures |r| <= |s|
    ensures r == [] || (!IsTrimmable(r[0]) && !IsTrimmable(r[|r| - 1]))
  {
    TrimEnd(TrimStart(s))
  }

  /** `TrimStart` removes a prefix of trimmable characters. */
  lemma {:induction false} TrimStartStrips(s: string)
    ensures TrimStart(s) == s[|s| - |TrimStart(s)|..]
    ensures forall i :: 0 <= i < |s| - |TrimStart(s)| ==> IsTrimmable(s[i])
  {
    if |s| > 0 && IsTrimmable(s[0]) {
      TrimStartStrips(s[1..]);
      assert s[1..][|s| - 1 - |TrimStart(s)|..] == s[|s| - |TrimStart(s)|..];
      forall i | 1 <= i < |s| - |TrimStart(s)|
        ensures IsTrimmable(s[i])
      {
        assert s[i] == s[1..][i - 1];
      }
    }
  }

  /** `TrimEnd` removes a suffix of trimmable characters. */
  lemma {:induction false} TrimEndStrips(s: string)
    ensures TrimEnd(s) == s[..|TrimEnd(s)|]
    ensures forall i :: |TrimEnd(s)| <= i < |s| ==> IsTrimmable(s[i])
  {
    if |s| > 0 && IsTrimmable(s[|s| - 1]) {
      var n := |s| - 1;
      TrimEndStrips(s[..n]);
      assert s[..n][..|TrimEnd(s)|] == s[..|TrimEnd(s)|];
      forall i | |TrimEnd(s)| <= i < n
        ensures IsTrimmable(s[i])
      {
        assert s[i] == s[..n][i];
      }
    }
  }

  /**
   * `trim` keeps one contiguous stretch of `s`, starting after the first `k`
   * characters, and every character it drops is trimmable.
   */
  lemma TrimStrips(s: string)
    ensures var k := |s| - |TrimStart(s)|; var r := Trim(s);
            && k + |r| <= |s| && r == s[k..k + |r|]
            && (forall i :: 0 <= i < k ==> IsTrimmable(s[i]))
            && (forall i :: k + |r| <= i < |s| ==> IsTrimmable(s[i]))
  {
    var t := TrimStart(s);
    var k := |s| - |t|;
    TrimStartStrips(s);
    TrimEndStrips(t);
    var r := Trim(s);
    assert t[..|r|] == s[k..k + |r|];
    forall i | k + |r| <= i < |s|
      ensures IsTrimmable(s[i])
    {
      assert s[i] == t[i - k];
    }
  }

  /** Every character of `s` is one that `trim` strips. */
  predicate IsBlank(s: string) {
    |s| == 0 || (IsTrimmable(s[0]) && IsBlank(s[1..]))
  }

  /** `IsBlank(s)` is Java's `s.trim().isEmpty()`. */
  lemma {:induction false} BlankIffTrimsToEmpty(s: string)
    ensures IsBlank(s) <==> Trim(s) == ""
  {
    if |s| > 0 {
      BlankIffTrimsToEmpty(s[1..]);
      if IsTrimmable(s[0]) {
        assert TrimStart(s) == TrimStart(s[1..]);
      } else {
        TrimStartNoop(s);
        TrimEndStrips(s);
      }
    }
  }

  /** Every character of a blank string is one that `trim` strips. */
  lemma {:induction false} BlankChars(s: string, i: nat)
    requires IsBlank(s) && i < |s|
    ensures IsTrimmable(s[i])
  {
    if i > 0 {
      BlankChars(s[1..], i - 1);
    }
  }

  /** A string that `trim` leaves as it is and that is not empty. */
  predicate IsToken(t: string) {
    t != [] && !IsTrimmable(t[0]) && !IsTrimmable(t[|t| - 1])
  }

  lemma {:induction false} TrimStartNoop(s: string)
    requires s == [] || !IsTrimmable(s[0])
    ensures TrimStart(s) == s
  {
  }

  /** Trimming a string whose ends are not trimmable changes nothing. */
  lemma TrimOfTrimmed(s: string)
    requires s == [] || (!IsTrimmable(s[0]) && !IsTrimmable(s[|s| - 1]))
    ensures Trim(s) == s
  {
    TrimStartNoop(s);
  }

  /** `trim` is idempotent. */
  lemma TrimIdempotent(s: string)
    ensures Trim(Trim(s)) == Trim(s)
  {
    TrimOfTrimmed(Trim(s));
  }

  /** Appends the separator `c` between consecutive pieces: Java's `String.join`. */
  function Join(ps: seq<string>, c: char): string {
    if |ps| == 0 then "" else if |ps| == 1 then ps[0] else ps[0] + [c] + Join(ps[1..], c)
  }

  /**
   * The pieces of `s` between occurrences of `c`, every empty piece kept
   * (what `split` computes before a limit or the trailing-empty rule applies).
   */
  function Pieces(s: string, c: char): (r: seq<string>)
    ensures |r| >= 1
  {
    if |s| == 0 then
      [""]
    else
      var rest := Pieces(s[1..], c);
      if s[0] == c then [""] + rest else [[s[0]] + rest[0]] + rest[1..]
  }

  /** No piece holds `c`, and joining the pieces with `c` restores the string. */
  lemma {:induction false} PiecesRejoin(s: string, c: char)
    ensures forall i :: 0 <= i < |Pieces(s, c)| ==> c !in Pieces(s, c)[i]
    ensures Join(Pieces(s, c), c) == s
  {
    if |s| > 0 {
      var rest := Pieces(s[1..], c);
      PiecesRejoin(s[1..], c);
      var r := Pieces(s, c);
      if s[0] == c {
        assert r[1..] == rest;
        assert s == [c] + s[1..];
      } else {
        assert r[1..] == rest[1..];
        assert Join(r, c) == [s[0]] + Join(rest, c);
      }
    }
  }

  /** The pieces of a blank string are blank. */
  lemma {:induction false} BlankPieces(s: string, c: char)
    requires IsBlank(s)
    ensures forall i :: 0 <= i < |Pieces(s, c)| ==> IsBlank(Pieces(s, c)[i])
  {
    if |s| > 0 {
      BlankPieces(s[1..], c);
      var rest := Pieces(s[1..], c);
      var r := Pieces(s, c);
      if s[0] != c {
        assert r[0] == [s[0]] + rest[0] && r[0][1..] == rest[0];
        assert forall i :: 1 <= i < |r| ==> r[i] == rest[i];
      } else {
        assert forall i :: 1 <= i < |r| ==> r[i] == rest[i - 1];
      }
    }
  }

  /** A character other than `c` that no piece holds is not in their join. */
  lemma {:induction false} JoinAvoids(ps: seq<string>, c: char, x: char)
    requires x != c && forall i :: 0 <= i < |ps| ==> x !in ps[i]
    ensures x !in Join(ps, c)
  {
    if |ps| > 1 {
      JoinAvoids(ps[1..], c, x);
    }
  }

  /** A string without `c` is a single piece. */
  lemma {:induction false} PiecesOfPlain(w: string, c: char)
    requires c !in w
    ensures Pieces(w, c) == [w]
  {
    if |w| > 0 {
      PiecesOfPlain(w[1..], c);
      assert [w[0]] + w[1..] == w;
    }
  }

  /** A piece without `c` followed by `c` is split off whole. */
  lemma {:induction false} PiecesOfPrefix(w: string, c: char, t: string)
    requires c !in w
    ensures Pieces(w + [c] + t, c) == [w] + Pieces(t, c)
  {
    var s := w + [c] + t;
    if |w| == 0 {
      assert s[1..] == t;
    } else {
      assert s[1..] == w[1..] + [c] + t;
      PiecesOfPrefix(w[1..], c, t);
      assert [w[0]] + w[1..] == w;
    }
  }

  /** Splitting a join of `c`-free pieces gives the pieces back. */
  lemma {:induction false} PiecesOfJoin(ps: seq<string>, c: char)
    requires |ps| >= 1
    requires forall i :: 0 <= i < |ps| ==> c !in ps[i]
    ensures Pieces(Join(ps, c), c) == ps
  {
    if |ps| == 1 {
      PiecesOfPlain(ps[0], c);
    } else {
      PiecesOfJoin(ps[1..], c);
      PiecesOfPrefix(ps[0], c, Join(ps[1..], c));
      assert [ps[0]] + ps[1..] == ps;
    }
  }

  function DropTrailingEmpty(ps: seq<string>): (r: seq<string>)
    ensures |r| <= |ps|
  {
    if |ps| > 0 && ps[|ps| - 1] == "" then DropTrailingEmpty(ps[..|ps| - 1]) else ps
  }

  /** What remains is a prefix that does not end in an empty string, and all that went was empty. */
  lemma {:induction false} DropTrailingEmptyDrops(ps: seq<string>)
    ensures DropTrailingEmpty(ps) <= ps
    ensures DropTrailingEmpty(ps) == [] || DropTrailingEmpty(ps)[|DropTrailingEmpty(ps)| - 1] != ""
    ensures forall i :: |DropTrailingEmpty(ps)| <= i < |ps| ==> ps[i] == ""
  {
    if |ps| > 0 && ps[|ps| - 1] == "" {
      DropTrailingEmptyDrops(ps[..|ps| - 1]);
    }
  }

  /**
   * Java's `s.split(c)` for a one-character literal pattern and no limit:
   * the whole string when `c` does not occur, otherwise the pieces with
   * trailing empty strings removed.
   */
  function Split(s: string, c: char): (r: seq<string>)
    ensures c !in s ==> r == [s]
  {
    if c !in s then [s] else DropTrailingEmpty(Pieces(s, c))
  }

  /** When `c` occurs, `split` keeps the pieces up to the last non-empty one. */
  lemma SplitKeepsPieces(s: string, c: char)
    requires c in s
    ensures Split(s, c) <= Pieces(s, c)
    ensures Split(s, c) == [] || Split(s, c)[|Split(s, c)| - 1] != ""
    ensures forall i :: |Split(s, c)| <= i < |Pieces(s, c)| ==> Pieces(s, c)[i] == ""
  {
    DropTrailingEmptyDrops(Pieces(s, c));
  }

  /** Splitting a join of `c`-free pieces, the last one not empty, gives the pieces back. */
  lemma SplitOfJoin(ps: seq<string>, c: char)
    requires |ps| >= 1 && ps[|ps| - 1] != ""
    requires forall i :: 0 <= i < |ps| ==> c !in ps[i]
    ensures Split(Join(ps, c), c) == ps
  {
    var j := Join(ps, c);
    PiecesOfJoin(ps, c);
    if c !in j {
      PiecesOfPlain(j, c);
    }
  }

  /** Joining the first two pieces and the rest is joining them all. */
  lemma JoinFirstTwo(ps: seq<string>, c: char)
    requires |ps| >= 3
    ensures Join(ps, c) == ps[0] + [c] + ps[1] + [c] + Join(ps[2..], c)
  {
    assert ps[1..][1..] == ps[2..];
  }

  /**
   * Java's `s.split(c, 3)`: at most three fields; the last one keeps every
   * later occurrence of `c`, and trailing empty fields are kept.
   */
  function SplitThree(s: string, c: char): (r: seq<string>)
    ensures 1 <= |r| <= 3
  {
    var ps := Pieces(s, c);
    if |ps| <= 3 then ps else [ps[0], ps[1], Join(ps[2..], c)]
  }

  /** The fields rejoin to the line; only the third may hold `c`. */
  lemma SplitThreeRejoin(s: string, c: char)
    ensures Join(SplitThree(s, c), c) == s
    ensures forall i :: 0 <= i < |SplitThree(s, c)| - 1 ==> c !in SplitThree(s, c)[i]
    ensures |SplitThree(s, c)| < 3 ==> c !in SplitThree(s, c)[|SplitThree(s, c)| - 1]
  {
    var ps := Pieces(s, c);
    PiecesRejoin(s, c);
    if |ps| > 3 {
      var r := SplitThree(s, c);
      JoinFirstTwo(ps, c);
      JoinFirstTwo(r, c);
      assert r[2..] == [Join(ps[2..], c)];
    }
  }

  /** Two `c`-free fields and a rest, joined by `c`, split back under a limit of three. */
  lemma SplitThreeOfFields(a: string, b: string, t: string, c: char)
    requires c !in a && c !in b
    ensures SplitThree(a + [c] + b + [c] + t, c) == [a, b, t]
  {
    var s := a + [c] + b + [c] + t;
    assert s == a + [c] + (b + [c] + t);
    PiecesOfPrefix(a, c, b + [c] + t);
    PiecesOfPrefix(b, c, t);
    var ps := Pieces(s, c);
    var rest := Pieces(t, c);
    assert ps == [a, b] + rest;
    PiecesRejoin(t, c);
    if |ps| > 3 {
      assert ps[2..] == rest;
    }
  }

  /** Each piece trimmed, the empty ones dropped, order kept. */
  function TrimmedTokens(ps: seq<string>): (r: seq<string>)
    ensures |r| <= |ps|
    ensures forall i :: 0 <= i < |r| ==> IsToken(r[i])
  {
    if ps == [] then
      []
    else
      var t := Trim(ps[|ps| - 1]);
      TrimmedTokens(ps[..|ps| - 1]) + (if t == "" then [] else [t])
  }

  /** Blank pieces leave no tokens. */
  lemma {:induction false} TrimmedTokensOfBlanks(ps: seq<string>)
    requires forall i :: 0 <= i < |ps| ==> IsBlank(ps[i])
    ensures TrimmedTokens(ps) == []
  {
    if ps != [] {
      TrimmedTokensOfBlanks(ps[..|ps| - 1]);
      BlankIffTrimsToEmpty(ps[|ps| - 1]);
    }
  }

  lemma {:induction false} TrimmedTokensAppend(ps: seq<string>, qs: seq<string>)
    ensures TrimmedTokens(ps + qs) == TrimmedTokens(ps) + TrimmedTokens(qs)
  {
    if qs == [] {
      assert ps + qs == ps;
    } else {
      var n := |qs| - 1;
      assert (ps + qs)[..|ps + qs| - 1] == ps + qs[..n];
      TrimmedTokensAppend(ps, qs[..n]);
    }
  }

  /** Pieces that are already tokens survive unchanged. */
  lemma {:induction false} TrimmedTokensOfTokens(ps: seq<string>)
    requires forall i :: 0 <= i < |ps| ==> IsToken(ps[i])
    ensures TrimmedTokens(ps) == ps
  {
    if ps != [] {
      var n := |ps| - 1;
      TrimmedTokensOfTokens(ps[..n]);
      TrimOfTrimmed(ps[n]);
      assert ps[..n] + [ps[n]] == ps;
    }
  }

  /** Java's `s.startsWith(p)`. */
  predicate StartsWith(s: string, p: string) {
    |p| <= |s| && s[..|p|] == p
  }

  /** Java's `s.contains(t)`: `t` starts at some position of `s`. */
  predicate Contains(s: string, t: string) {
    StartsWith(s, t) || (|s| > 0 && Contains(s[1..], t))
  }

  /** Java's `s.endsWith(p)`. */
  predicate EndsWith(s: string, p: string) {
    |p| <= |s| && s[|s| - |p|..] == p
  }

  function LowerChar(c: char): char {
    if 'A' <= c <= 'Z' then (c as int + 32) as char else c
  }

  /** `toLowerCase` on the ASCII letters; every other character is kept. */
  function ToLower(s: string): (r: string)
    ensures |r| == |s|
    ensures forall i :: 0 <= i < |s| ==> r[i] == LowerChar(s[i])
  {
    if s == [] then [] else [LowerChar(s[0])] + ToLower(s[1..])
  }
}
