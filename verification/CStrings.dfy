/** Zero-terminated strings in character buffers, and the routines that rewrite them in place. */
module CStrings {
  import opened Text

  /** Buffer `a` holds the string `s`. */
  ghost predicate Holds(a: array<char>, s: string)
    reads a
  {
    |s| < a.Length && a[..|s|] == s && a[|s|] == NUL && NUL !in s
  }

  lemma HoldsChars(a: array<char>, s: string)
    requires Holds(a, s)
    ensures forall i :: 0 <= i < |s| ==> a[i] == s[i] && a[i] != NUL
  {
    assert forall i :: 0 <= i < |s| ==> s[i] == a[..|s|][i];
  }

  lemma HoldsSlice(a: array<char>, s: string, i: nat, j: nat)
    requires Holds(a, s) && i <= j <= |s|
    ensures a[i..j] == s[i..j]
  {
    HoldsChars(a, s);
  }

  method StrLen(a: array<char>, ghost s: string) returns (n: nat)
    requires Holds(a, s)
    ensures n == |s|
  {
    HoldsChars(a, s);
    n := 0;
    while a[n] != NUL
      invariant n <= |s|
      decreases |s| - n
    {
      n := n + 1;
    }
  }

  /** strstr from position `from` on. */
  method StrStr(a: array<char>, from: nat, pat: string, ghost s: string) returns (pos: int)
    requires Holds(a, s) && from <= |s|
    ensures pos == Find(s, pat, from)
  {
    var n := StrLen(a, s);
    pos := from;
    while pos + |pat| <= n
      invariant from <= pos <= n + 1
      invariant forall i :: from <= i < pos ==> !OccursAt(s, pat, i)
      decreases n - pos
    {
      HoldsSlice(a, s, pos, pos + |pat|);
      if a[pos..pos + |pat|] == pat {
        FindIs(s, pat, from, pos);
        return;
      }
      pos := pos + 1;
    }
    FindIs(s, pat, from, -1);
    pos := -1;
  }

  /** Put `src` at position `at` and terminate it there. */
  method PutAt(dest: array<char>, at: nat, src: string)
    requires at + |src| < dest.Length
    modifies dest
    ensures dest[..at + |src|] == old(dest[..at]) + src && dest[at + |src|] == NUL
    ensures dest[at + |src| + 1..] == old(dest[at + |src| + 1..])
  {
    forall i | 0 <= i < |src| {
      dest[at + i] := src[i];
    }
    dest[at + |src|] := NUL;
  }

  function Min(a: nat, b: nat): nat {
    if a < b then a else b
  }

  /** STRNCPY: the first `n` characters of `src`, cut off at the capacity of `dest`. */
  method StrNCpy(dest: array<char>, src: string, n: nat)
    requires dest.Length > 0 && NUL !in src
    modifies dest
    ensures Holds(dest, src[..Min(Min(n, dest.Length - 1), |src|)])
  {
    if n > dest.Length - 1 {
      PutAt(dest, 0, src[..Min(dest.Length - 1, |src|)]);
    } else {
      PutAt(dest, 0, src[..Min(n, |src|)]);
    }
  }

  /** STRCAT: append `src`, cut off at the capacity of `dest`. */
  method StrCat(dest: array<char>, src: string, ghost s: string)
    requires Holds(dest, s) && NUL !in src
    modifies dest
    ensures var room := dest.Length - 1 - |s|; Holds(dest, s + src[..if |src| > room then room else |src|])
  {
    var len := StrLen(dest, s);
    var left := dest.Length - 1 - len;
    if |src| > left {
      PutAt(dest, len, src[..left]);
    } else {
      PutAt(dest, len, src);
      assert src[..|src|] == src;
    }
  }

  /** One pass has room for its result in the text's buffer and in the scratch buffer. */
  ghost predicate RoomForPass(str: array<char>, s: string, a: string, b: string)
    requires a != []
  {
    |ReplaceAll(s, a, b)| < str.Length && |ReplaceAll(s, a, b)| < Scratch(s)
  }

  /** The loop that goes on until `a` is gone is over after `n` rounds, and has room for all of them. */
  ghost predicate RoomUntilGone(str: array<char>, s: string, a: string, b: string, n: nat) {
    && !Contains(Rounds(s, a, b, n), a)
    && RoomForRounds(str.Length, s, a, b, n) && RoomForRounds(Scratch(s), s, a, b, n)
  }

  /** One replacement through the scratch buffer: `pos` is where the old text of length `n` stands. */
  method ReplaceAt(str: array<char>, strTemp: array<char>, pos: nat, n: nat, str2: string, ghost s: string)
    requires Holds(str, s) && str != strTemp && pos + n <= |s| && NUL !in str2
    requires |Splice(s, pos, n, str2)| < str.Length && |Splice(s, pos, n, str2)| < strTemp.Length
    modifies str, strTemp
    ensures Holds(str, Splice(s, pos, n, str2))
  {
    var len := StrLen(str, s);
    var text := str[..len];
    StrNCpy(strTemp, text, pos);
    StrCat(strTemp, str2, s[..pos]);
    assert str2[..|str2|] == str2;
    StrCat(strTemp, text[pos + n..], s[..pos] + str2);
    var tail := text[pos + n..];
    assert tail[..|tail|] == tail;
    var newLen := StrLen(strTemp, Splice(s, pos, n, str2));
    PutAt(str, 0, strTemp[..newLen]);
  }

  /** Replace `str1` by `str2` in place: in one pass, or with `bloop` until `str1` is gone, for which `rounds`
      rounds are enough. */
  method UpdateStr(str: array<char>, str1: string, str2: string, bloop: bool, ghost s: string, ghost rounds: nat)
    returns (ghost t: string)
    requires Holds(str, s) && NUL !in str1 && NUL !in str2
    requires !bloop ==> str1 != [] && RoomForPass(str, s, str1, str2)
    requires bloop && !Contains(str2, str1) ==> RoomUntilGone(str, s, str1, str2, rounds)
    modifies str
    ensures Holds(str, t)
    ensures !bloop ==> t == ReplaceAll(s, str1, str2)
    ensures bloop && Contains(str2, str1) ==> t == s
    ensures bloop && !Contains(str2, str1) ==> t == Rounds(s, str1, str2, rounds) && !Contains(t, str1)
  {
    t := s;
    var len := StrLen(str, s);
    if len == 0 {
      return;
    }
    if bloop && Contains(str2, str1) {
      return;
    }
    var ilen := if len * 10 < 1000 then 1000 else len * 10;
    var strTemp := new char[ilen];
    var strStart: nat := 0;
    ghost var left: nat := rounds;
    ghost var goal := LoopStarts(str, s, str1, str2, bloop, rounds);
    while true
      invariant Holds(str, t) && |t| < ilen && |t| < str.Length
      invariant OnTheWay(str.Length, ilen, t, strStart, str1, str2, bloop, left, goal)
      decreases if bloop then left else |t| - strStart
    {
      var pos := StrStr(str, if bloop then 0 else strStart, str1, t);
      if pos == -1 {
        LoopEnds(str.Length, ilen, t, strStart, str1, str2, bloop, left, goal);
        break;
      }
      LoopGoesOn(str.Length, ilen, t, strStart, str1, str2, bloop, left, goal, pos);
      ReplaceAt(str, strTemp, pos, |str1|, str2, t);
      t := Splice(t, pos, |str1|, str2);
      strStart, left := pos + |str2|, if bloop then left - 1 else left;
    }
  }

  // ---------- the loop of the replacement, by its two modes ----------

  /** What is still to come leads to `goal`. */
  predicate OnTheWay(size: nat, scratch: nat, t: string, start: nat, a: string, b: string,
                     bloop: bool, left: nat, goal: string)
  {
    && start <= |t|
    && if bloop then Underway(size, scratch, t, a, b, left, goal)
       else a != [] && |goal| < size && |goal| < scratch && InPass(t, start, a, b, goal)
  }

  lemma LoopStarts(str: array<char>, s: string, a: string, b: string, bloop: bool, rounds: nat) returns (goal: string)
    requires !bloop ==> a != [] && RoomForPass(str, s, a, b)
    requires bloop ==> RoomUntilGone(str, s, a, b, rounds)
    ensures goal == if bloop then Rounds(s, a, b, rounds) else ReplaceAll(s, a, b)
    ensures bloop ==> !Contains(goal, a)
    ensures OnTheWay(str.Length, Scratch(s), s, 0, a, b, bloop, rounds, goal)
  {
    goal := if bloop then Rounds(s, a, b, rounds) else ReplaceAll(s, a, b);
    if !bloop {
      assert s[0..] == s && s[..0] + goal == goal;
    }
  }

  lemma LoopEnds(size: nat, scratch: nat, t: string, start: nat, a: string, b: string,
                 bloop: bool, left: nat, goal: string)
    requires OnTheWay(size, scratch, t, start, a, b, bloop, left, goal)
    requires Find(t, a, if bloop then 0 else start) == -1
    ensures t == goal
  {
    if !bloop {
      PassEnds(t, start, a, b);
    }
  }

  lemma LoopGoesOn(size: nat, scratch: nat, t: string, start: nat, a: string, b: string,
                   bloop: bool, left: nat, goal: string, pos: nat)
    requires OnTheWay(size, scratch, t, start, a, b, bloop, left, goal) && |t| < size && |t| < scratch
    requires pos == Find(t, a, if bloop then 0 else start)
    ensures bloop ==> left > 0
    ensures var next := Splice(t, pos, |a|, b);
            && |next| < size && |next| < scratch
            && OnTheWay(size, scratch, next, pos + |b|, a, b, bloop, if bloop then left - 1 else left, goal)
            && (!bloop ==> |next| - (pos + |b|) < |t| - start)
  {
    if bloop {
      RoundGoesOn(size, scratch, t, a, b, left, goal);
    } else {
      PassGoesOn(t, start, a, b, goal, pos);
    }
  }

  /** Up to `start` the pass is done, behind it nothing has been touched. */
  predicate InPass(t: string, start: nat, a: string, b: string, goal: string)
    requires a != []
  {
    start <= |t| && t[..start] + ReplaceAll(t[start..], a, b) == goal
  }

  /** `left` more rounds lead to `goal`, which is free of `a`. */
  predicate Underway(size: nat, scratch: nat, t: string, a: string, b: string, left: nat, goal: string) {
    && Rounds(t, a, b, left) == goal && !Contains(goal, a)
    && RoomForRounds(size, t, a, b, left) && RoomForRounds(scratch, t, a, b, left)
  }

  lemma RoundGoesOn(size: nat, scratch: nat, t: string, a: string, b: string, left: nat, goal: string)
    requires Underway(size, scratch, t, a, b, left, goal) && Find(t, a, 0) != -1
    ensures left > 0
    ensures var next := Splice(t, Find(t, a, 0), |a|, b);
            Underway(size, scratch, next, a, b, left - 1, goal) && |next| < size && |next| < scratch
  {
  }

  /** Until-gone mode with disjoint texts ends, is the one pass, and needs no more room than that. */
  lemma DisjointHasRoom(str: array<char>, s: string, a: string, b: string) returns (rounds: nat)
    requires Disjoint(a, b) && RoomForPass(str, s, a, b)
    ensures RoomUntilGone(str, s, a, b, rounds) && Rounds(s, a, b, rounds) == ReplaceAll(s, a, b)
  {
    rounds := UntilGoneIsOnePass(s, a, b);
    GrowingFits(str.Length, s, a, b, rounds);
    GrowingFits(Scratch(s), s, a, b, rounds);
  }

  /** Until-gone mode for new text that is not longer than the old: it needs no more room than the text has. */
  method UpdateUntilGone(str: array<char>, str1: string, str2: string, ghost s: string)
    requires Holds(str, s) && NUL !in str1 && NUL !in str2 && Stops(str1, str2)
    modifies str
    ensures Holds(str, Fixpoint(s, str1, str2))
  {
    ghost var rounds := FixpointIsClean(s, str1, str2);
    ShrinkingFits(str.Length, s, str1, str2, rounds);
    ShrinkingFits(Scratch(s), s, str1, str2, rounds);
    ghost var _ := UpdateStr(str, str1, str2, true, s, rounds);
  }

  lemma PassEnds(t: string, start: nat, a: string, b: string)
    requires start <= |t| && a != [] && Find(t, a, start) == -1
    ensures t[..start] + ReplaceAll(t[start..], a, b) == t
  {
    FindFrom(t, a, start);
    ReplaceBySearch(t[start..], a, b, -1);
  }

  /** The restart index moves past the inserted text, so the rest of the pass sees only old text, and less of it. */
  lemma PassGoesOn(t: string, start: nat, a: string, b: string, goal: string, pos: nat)
    requires a != [] && InPass(t, start, a, b, goal) && pos == Find(t, a, start)
    ensures var next := Splice(t, pos, |a|, b);
            && InPass(next, pos + |b|, a, b, goal)
            && |next| - (pos + |b|) < |t| - start
            && (|next| <= |t| || |next| <= |goal|)
  {
    FindFrom(t, a, start);
    PassFrom(t, start, t[start..], a, b, goal, pos - start);
  }

  lemma PassFrom(t: string, start: nat, rest: string, a: string, b: string, goal: string, p: nat)
    requires a != [] && start <= |t| && rest == t[start..] && p == Find(rest, a, 0)
    requires t[..start] + ReplaceAll(rest, a, b) == goal
    ensures start + p + |a| <= |t|
    ensures var next := Splice(t, start + p, |a|, b);
            InPass(next, start + p + |b|, a, b, goal) && (|next| <= |t| || |next| <= |goal|)
  {
    var left := PassFinds(rest, a, b, p);
    SpliceTail(t, rest, start, p, |a|, b, ReplaceAll(rest, a, b), ReplaceAll(left, a, b));
    StillInPass(Splice(t, start + p, |a|, b), start + p + |b|, a, b, goal, left);
  }

  lemma StillInPass(next: string, start: nat, a: string, b: string, goal: string, left: string)
    requires a != [] && start <= |next| && left == next[start..]
    requires next[..start] + ReplaceAll(left, a, b) == goal
    ensures InPass(next, start, a, b, goal)
  {
  }

  lemma PassFinds(rest: string, a: string, b: string, p: nat) returns (left: string)
    requires a != [] && p == Find(rest, a, 0)
    ensures p + |a| <= |rest| && left == rest[p + |a|..]
    ensures ReplaceAll(rest, a, b) == rest[..p] + b + ReplaceAll(left, a, b)
    ensures |b| >= |a| ==> |ReplaceAll(left, a, b)| >= |left|
  {
    ReplaceBySearch(rest, a, b, p);
    left := rest[p + |a|..];
    ReplaceLength(left, a, b);
  }

  lemma SpliceTail(t: string, rest: string, start: nat, p: nat, n: nat, b: string, all: string, done: string)
    requires start + p + n <= |t| && rest == t[start..] && all == rest[..p] + b + done
    requires |b| >= n ==> |done| >= |rest| - p - n
    ensures var next := Splice(t, start + p, n, b);
            && next[start + p + |b|..] == rest[p + n..]
            && t[..start] + all == next[..start + p + |b|] + done
            && (|next| <= |t| || |next| <= start + |all|)
  {
  }
}
