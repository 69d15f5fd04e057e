/** Strings as values: searching, replacing, trimming. */
module Text {
  const NUL: char := '\0'

  predicate OccursAt(s: string, pat: string, i: int) {
    0 <= i && i + |pat| <= |s| && s[i..i + |pat|] == pat
  }

  /** Position of the leftmost occurrence at or after `from`, or -1. */
  function Find(s: string, pat: string, from: nat): (r: int)
    requires from <= |s|
    ensures r == -1 || (from <= r && OccursAt(s, pat, r))
    ensures forall i :: from <= i && (r == -1 || i < r) ==> !OccursAt(s, pat, i)
    decreases |s| - from
  {
    if OccursAt(s, pat, from) then from
    else if from == |s| then -1
    else Find(s, pat, from + 1)
  }

  predicate Contains(s: string, pat: string) {
    Find(s, pat, 0) != -1
  }

  lemma FindIs(s: string, pat: string, from: nat, r: int)
    requires from <= |s|
    requires r == -1 || (from <= r && OccursAt(s, pat, r))
    requires forall i :: from <= i && (r == -1 || i < r) ==> !OccursAt(s, pat, i)
    ensures Find(s, pat, from) == r
  {
    var f := Find(s, pat, from);
    assert r == -1 || OccursAt(s, pat, r);
    assert f == -1 || OccursAt(s, pat, f);
  }

  lemma OccursChars(s: string, pat: string, i: nat)
    requires OccursAt(s, pat, i)
    ensures forall k :: 0 <= k < |pat| ==> pat[k] == s[i + k]
  {
    var window := s[i..i + |pat|];
    assert forall k :: 0 <= k < |pat| ==> window[k] == s[i + k];
  }

  lemma DropSlice(s: string, from: nat, i: nat, j: nat)
    requires i <= j && from + j <= |s|
    ensures s[from..][i..j] == s[from + i..from + j]
  {
  }

  lemma FindFrom(s: string, pat: string, from: nat)
    requires from <= |s|
    ensures Find(s[from..], pat, 0) == if Find(s, pat, from) == -1 then -1 else Find(s, pat, from) - from
  {
    var r := Find(s, pat, from);
    forall i | 0 <= i
      ensures OccursAt(s[from..], pat, i) == OccursAt(s, pat, i + from)
    {
      if i + from + |pat| <= |s| {
        DropSlice(s, from, i, i + |pat|);
      }
    }
    FindIs(s[from..], pat, 0, if r == -1 then -1 else r - from);
  }

  /** Searching behind a prefix. */
  lemma FindBehind(pre: string, rest: string, pat: string, k: nat, r: int)
    requires k <= |rest| && r == Find(rest, pat, k)
    ensures Find(pre + rest, pat, |pre| + k) == if r == -1 then -1 else |pre| + r
  {
    var s := pre + rest;
    forall i | |pre| <= i
      ensures OccursAt(s, pat, i) == OccursAt(rest, pat, i - |pre|)
    {
      if i + |pat| <= |s| {
        DropPrefixSlice(pre, rest, i - |pre|, i - |pre| + |pat|);
      }
    }
    FindIs(s, pat, |pre| + k, if r == -1 then -1 else |pre| + r);
  }

  lemma DropPrefixSlice(pre: string, rest: string, i: nat, j: nat)
    requires i <= j <= |rest|
    ensures (pre + rest)[|pre| + i..|pre| + j] == rest[i..j]
  {
  }

  /** The search skips a stretch in which the text does not occur. */
  lemma FindSkips(s: string, pat: string, from: nat, to: nat)
    requires from <= to <= |s|
    requires forall i :: from <= i < to ==> !OccursAt(s, pat, i)
    ensures Find(s, pat, from) == Find(s, pat, to)
  {
    FindIs(s, pat, from, Find(s, pat, to));
  }

  /** One left-to-right pass: every leftmost non-overlapping `a` becomes `b`, every other character stays. */
  function ReplaceAll(s: string, a: string, b: string): string
    requires a != []
    decreases |s|
  {
    if s == [] then []
    else if a <= s then b + ReplaceAll(s[|a|..], a, b)
    else [s[0]] + ReplaceAll(s[1..], a, b)
  }

  /** Replace the occurrence at `p`. */
  function Splice(s: string, p: nat, n: nat, b: string): string
    requires p + n <= |s|
  {
    s[..p] + b + s[p + n..]
  }

  lemma FindShift(s: string, pat: string)
    requires s != [] && !OccursAt(s, pat, 0)
    ensures Find(s, pat, 0) == if Find(s[1..], pat, 0) == -1 then -1 else Find(s[1..], pat, 0) + 1
  {
    FindFrom(s, pat, 1);
    assert Find(s, pat, 0) == Find(s, pat, 1);
  }

  /** Searching for the next occurrence and skipping to it is the same pass. */
  lemma {:induction false} ReplaceBySearch(s: string, a: string, b: string, p: int)
    requires a != [] && p == Find(s, a, 0)
    ensures p == -1 ==> ReplaceAll(s, a, b) == s
    ensures p != -1 ==> ReplaceAll(s, a, b) == s[..p] + b + ReplaceAll(s[p + |a|..], a, b)
    decreases |s|
  {
    if s == [] {
    } else if a <= s {
      assert OccursAt(s, a, 0);
      assert s[..0] + b == b;
    } else {
      FindShift(s, a);
      var q := Find(s[1..], a, 0);
      ReplaceBySearch(s[1..], a, b, q);
      if q != -1 {
        assert s[1..][q + |a|..] == s[p + |a|..];
        ConsAssociates(s, p, b, ReplaceAll(s[p + |a|..], a, b));
      }
    }
  }

  lemma ConsAssociates(s: string, p: nat, b: string, rest: string)
    requires 0 < p <= |s|
    ensures [s[0]] + (s[1..][..p - 1] + b + rest) == s[..p] + b + rest
  {
  }

  lemma {:induction false} ReplaceLength(s: string, a: string, b: string)
    requires a != []
    ensures |b| >= |a| ==> |ReplaceAll(s, a, b)| >= |s|
    ensures |b| <= |a| ==> |ReplaceAll(s, a, b)| <= |s|
    ensures |b| <= 9 * |a| ==> |ReplaceAll(s, a, b)| <= 9 * |s|
    decreases |s|
  {
    if s == [] {
    } else if a <= s {
      ReplaceLength(s[|a|..], a, b);
    } else {
      ReplaceLength(s[1..], a, b);
    }
  }

  /** Size of the scratch buffer the replacement routine takes for a text. */
  function Scratch(s: string): nat {
    if 10 * |s| < 1000 then 1000 else 10 * |s|
  }

  /** The scratch buffer, terminator included, holds the result of a pass that grows text at most ninefold. */
  lemma ScratchSuffices(s: string, a: string, b: string)
    requires a != [] && |b| <= 9 * |a|
    ensures |ReplaceAll(s, a, b)| < Scratch(s)
  {
    ReplaceLength(s, a, b);
  }

  lemma {:induction false} PassBelow(s: string, a: string, b: string)
    requires a != [] && |b| < 10 * |a|
    ensures s == [] || |ReplaceAll(s, a, b)| < 10 * |s|
    decreases |s|
  {
    if s == [] {
    } else if a <= s {
      PassBelow(s[|a|..], a, b);
    } else {
      PassBelow(s[1..], a, b);
    }
  }

  function Copies(unit: string, n: nat): (s: string)
    ensures |s| == n * |unit|
  {
    if n == 0 then [] else unit + Copies(unit, n - 1)
  }

  lemma {:induction false} CopiesGrow(a: string, b: string, n: nat)
    requires a != []
    ensures |ReplaceAll(Copies(a, n), a, b)| == n * |b|
  {
    if n > 0 {
      CopiesGrow(a, b, n - 1);
      var rest := Copies(a, n - 1);
      assert (a + rest)[|a|..] == rest && a <= a + rest;
      assert n * |b| == |b| + (n - 1) * |b|;
    }
  }

  lemma TenTimes(n: nat, x: nat, y: nat)
    requires y >= 10 * x
    ensures n * y >= 10 * (n * x)
  {
    assert n * (y - 10 * x) == n * y - n * (10 * x) >= 0;
  }

  lemma GrowsOut(a: string, b: string) returns (s: string)
    requires a != [] && |b| >= 10 * |a|
    ensures |ReplaceAll(s, a, b)| >= Scratch(s)
  {
    var n := 1000 + |a|;
    s := Copies(a, n);
    CopiesGrow(a, b, n);
    TenTimes(n, |a|, |b|);
    TenTimes(n, 1, 10 * |a|);
  }

  predicate PassFits(s: string, a: string, b: string)
    requires a != []
  {
    |ReplaceAll(s, a, b)| < Scratch(s)
  }

  /** It holds the result of one pass over every text exactly if the new text is less than ten times as long as
      the old. */
  lemma ScratchExactly(a: string, b: string)
    requires a != []
    ensures (forall s :: PassFits(s, a, b)) <==> |b| < 10 * |a|
  {
    if |b| < 10 * |a| {
      forall s
        ensures PassFits(s, a, b)
      {
        PassBelow(s, a, b);
      }
    } else {
      var s := GrowsOut(a, b);
      assert !PassFits(s, a, b);
    }
  }

  // ---------- trimming ----------

  function TrimLeft(s: string, c: char): string {
    if s != [] && s[0] == c then TrimLeft(s[1..], c) else s
  }

  function TrimRight(s: string, c: char): string {
    if s != [] && s[|s| - 1] == c then TrimRight(s[..|s| - 1], c) else s
  }

  function Trim(s: string, c: char): string {
    TrimRight(TrimLeft(s, c), c)
  }

  /** Trimming takes all copies of the character at that end, and nothing else. */
  lemma {:induction false} TrimLeftIs(s: string, c: char)
    ensures var k := |s| - |TrimLeft(s, c)|;
            && k >= 0 && TrimLeft(s, c) == s[k..]
            && (forall i :: 0 <= i < k ==> s[i] == c)
            && (k < |s| ==> s[k] != c)
  {
    if s != [] && s[0] == c {
      TrimLeftIs(s[1..], c);
      var k := |s| - |TrimLeft(s, c)|;
      assert s[1..][k - 1..] == s[k..];
      assert forall i :: 1 <= i < k ==> s[i] == s[1..][i - 1];
    }
  }

  lemma {:induction false} TrimRightIs(s: string, c: char)
    ensures var k := |TrimRight(s, c)|;
            && k <= |s| && TrimRight(s, c) == s[..k]
            && (forall i :: k <= i < |s| ==> s[i] == c)
            && (k > 0 ==> s[k - 1] != c)
  {
    if s != [] && s[|s| - 1] == c {
      TrimRightIs(s[..|s| - 1], c);
      assert s[..|s| - 1][..|TrimRight(s, c)|] == s[..|TrimRight(s, c)|];
      assert forall i :: 0 <= i < |s| - 1 ==> s[i] == s[..|s| - 1][i];
    }
  }

  /** `t` is what stands between the copies of `c` at the two ends of `s`. */
  ghost predicate BareOf(t: string, s: string, c: char) {
    exists i: nat, j: nat :: i <= j <= |s| && Between(t, s, c, i, j)
  }

  ghost predicate Between(t: string, s: string, c: char, i: nat, j: nat)
    requires i <= j <= |s|
  {
    && t == s[i..j]
    && (forall k :: 0 <= k < i || j <= k < |s| ==> s[k] == c)
    && (t != [] ==> t[0] != c && t[|t| - 1] != c)
  }

  /** Trimming both ends takes the copies of the character at the two ends, all of them, and nothing else. */
  lemma TrimIs(s: string, c: char)
    ensures BareOf(Trim(s, c), s, c)
  {
    TrimLeftIs(s, c);
    var left := TrimLeft(s, c);
    var i := |s| - |left|;
    TrimRightIs(left, c);
    var j := i + |Trim(s, c)|;
    assert forall k :: i <= k < |s| ==> s[k] == left[k - i];
    assert Between(Trim(s, c), s, c, i, j);
  }

  /** What is left of a string once it has passed through a C string. */
  function CStr(s: string): (r: string)
    ensures NUL !in r && r <= s
    ensures |r| < |s| ==> s[|r|] == NUL
  {
    if s == [] || s[0] == NUL then []
    else
      var r := CStr(s[1..]);
      assert s == [s[0]] + s[1..];
      [s[0]] + r
  }

  // ---------- replacing until nothing is left ----------

  /** `n` rounds of the loop. */
  function Rounds(s: string, a: string, b: string, n: nat): string
    decreases n
  {
    var p := Find(s, a, 0);
    if n == 0 || p == -1 then s else Rounds(Splice(s, p, |a|, b), a, b, n - 1)
  }

  /** Room for the text between all rounds. */
  predicate RoomForRounds(size: nat, s: string, a: string, b: string, n: nat)
    decreases n
  {
    var p := Find(s, a, 0);
    |s| < size && (n > 0 && p != -1 ==> RoomForRounds(size, Splice(s, p, |a|, b), a, b, n - 1))
  }

  lemma {:induction false} ShrinkingFits(size: nat, s: string, a: string, b: string, n: nat)
    requires |b| <= |a| && |s| < size
    ensures RoomForRounds(size, s, a, b, n)
    decreases n
  {
    var p := Find(s, a, 0);
    if n > 0 && p != -1 {
      ShrinkingFits(size, Splice(s, p, |a|, b), a, b, n - 1);
    }
  }

  // A text read as a number, to see that a replacement of equal length moves it in one direction only.

  const BASE := 0x110000

  function Bound(n: nat): nat {
    if n == 0 then 1 else Bound(n - 1) * BASE
  }

  function Number(s: string): (r: nat)
    ensures r < Bound(|s|)
  {
    if s == [] then 0 else Number(s[..|s| - 1]) * BASE + s[|s| - 1] as int
  }

  lemma {:induction false} NumberInjective(x: string, y: string)
    requires |x| == |y| && Number(x) == Number(y)
    ensures x == y
  {
    if x != [] {
      NumberInjective(x[..|x| - 1], y[..|y| - 1]);
      assert x == x[..|x| - 1] + [x[|x| - 1]] && y == y[..|y| - 1] + [y[|y| - 1]];
    }
  }

  lemma NumberAppend(x: string, c: char)
    ensures Number(x + [c]) == Number(x) * BASE + c as int
  {
    assert (x + [c])[..|x|] == x;
  }

  lemma {:induction false} NumberBehind(x: string, y: string, z: string)
    requires |x| == |y| && Number(x) < Number(y)
    ensures Number(x + z) < Number(y + z)
  {
    if z == [] {
      assert x + z == x && y + z == y;
    } else {
      var front, c := z[..|z| - 1], z[|z| - 1];
      NumberBehind(x, y, front);
      assert z == front + [c];
      assert x + z == (x + front) + [c] && y + z == (y + front) + [c];
      NumberAppend(x + front, c);
      NumberAppend(y + front, c);
    }
  }

  lemma {:induction false} NumberInFront(w: string, x: string, y: string)
    requires |x| == |y| && Number(x) < Number(y)
    ensures Number(w + x) < Number(w + y)
  {
    if x != [] {
      var u, v := x[..|x| - 1], y[..|y| - 1];
      var c, d := x[|x| - 1], y[|y| - 1];
      assert x == u + [c] && y == v + [d];
      assert w + x == (w + u) + [c] && w + y == (w + v) + [d];
      NumberAppend(w + u, c);
      NumberAppend(w + v, d);
      if Number(u) < Number(v) {
        NumberInFront(w, u, v);
      } else {
        NumberInjective(u, v);
      }
    }
  }

  /** What is left to do for a replacement of equal length. */
  function Left(s: string, a: string, b: string): nat {
    if Number(a) < Number(b) then Bound(|s|) - Number(s) else Number(s)
  }

  lemma SpliceMoves(s: string, p: nat, a: string, b: string)
    requires |a| == |b| && a != b && OccursAt(s, a, p)
    ensures Left(Splice(s, p, |a|, b), a, b) < Left(s, a, b)
  {
    var w, z := s[..p], s[p + |a|..];
    assert s == w + (a + z) && Splice(s, p, |a|, b) == w + (b + z);
    if Number(a) < Number(b) {
      NumberBehind(a, b, z);
      NumberInFront(w, a + z, b + z);
    } else {
      if Number(a) == Number(b) {
        NumberInjective(a, b);
      }
      NumberBehind(b, a, z);
      NumberInFront(w, b + z, a + z);
    }
  }

  /** New text that is not longer than the old and does not contain it: then the loop ends on every text. */
  predicate Stops(a: string, b: string) {
    |b| <= |a| && !Contains(b, a)
  }

  lemma StopsMoves(s: string, p: nat, a: string, b: string)
    requires Stops(a, b) && OccursAt(s, a, p)
    ensures |Splice(s, p, |a|, b)| < |s| ||
            (|Splice(s, p, |a|, b)| == |s| && Left(Splice(s, p, |a|, b), a, b) < Left(s, a, b))
  {
    assert a == b ==> OccursAt(b, a, 0);
    if |a| == |b| {
      SpliceMoves(s, p, a, b);
    }
  }

  function Fixpoint(s: string, a: string, b: string): string
    requires Stops(a, b)
    decreases |s|, Left(s, a, b)
  {
    var p := Find(s, a, 0);
    if p == -1 then s
    else
      StopsMoves(s, p, a, b);
      Fixpoint(Splice(s, p, |a|, b), a, b)
  }

  /** The loop ends, with nothing left to replace. */
  lemma {:induction false} FixpointIsClean(s: string, a: string, b: string) returns (n: nat)
    requires |b| <= |a| && !Contains(b, a)
    ensures Rounds(s, a, b, n) == Fixpoint(s, a, b)
    ensures !Contains(Fixpoint(s, a, b), a) && |Fixpoint(s, a, b)| <= |s|
    decreases |s|, Left(s, a, b)
  {
    var p := Find(s, a, 0);
    n := 0;
    if p != -1 {
      StopsMoves(s, p, a, b);
      var m := FixpointIsClean(Splice(s, p, |a|, b), a, b);
      n := m + 1;
    }
  }

  /** New text that is not shorter than the old, does not contain it, and has no end or beginning in common with
      its beginning or end: what is put in never becomes part of an occurrence. */
  predicate Disjoint(a: string, b: string) {
    && a != [] && |a| <= |b| && !Contains(b, a)
    && forall k :: 0 < k < |a| ==> a[|a| - k..] != b[..k] && a[..k] != b[|b| - k..]
  }

  lemma NotHere(x: string, z: string, a: string, b: string, i: nat)
    requires Disjoint(a, b) && i < |x| + |b|
    requires i < |x| ==> !OccursAt(x + (a + z), a, i)
    ensures !OccursAt(x + (b + z), a, i)
  {
    var u := x + (b + z);
    if i + |a| <= |u| {
      if i + |a| <= |x| {
        BeforeSeam(x, a + z, b + z, a, i);
      } else if i < |x| {
        EnteringNew(x, b, z, i, |a|);
      } else if i + |a| <= |x| + |b| {
        InsideNew(x, b, z, a, i);
        assert !OccursAt(b, a, i - |x|);
      } else {
        LeavingNew(x, b, z, i, |a|);
      }
    }
  }

  lemma BeforeSeam(x: string, y: string, z: string, a: string, i: nat)
    requires i + |a| <= |x|
    ensures OccursAt(x + y, a, i) == OccursAt(x + z, a, i)
  {
    assert (x + y)[i..i + |a|] == x[i..i + |a|] == (x + z)[i..i + |a|];
  }

  lemma InsideNew(x: string, b: string, z: string, a: string, i: nat)
    requires |x| <= i && i + |a| <= |x| + |b|
    ensures OccursAt(x + (b + z), a, i) == OccursAt(b, a, i - |x|)
  {
    assert (x + (b + z))[i..i + |a|] == b[i - |x|..i - |x| + |a|];
  }

  lemma EnteringNew(x: string, b: string, z: string, i: nat, n: nat)
    requires i < |x| < i + n <= |x| + |b|
    ensures var k := i + n - |x|; (x + (b + z))[i..i + n][n - k..] == b[..k]
  {
  }

  lemma LeavingNew(x: string, b: string, z: string, i: nat, n: nat)
    requires |x| <= i <= |x| + |b| < i + n <= |x| + |b| + |z|
    ensures var k := |b| - (i - |x|); (x + (b + z))[i..i + n][..k] == b[|b| - k..]
  {
  }

  /** After one replacement the next occurrence is behind what was put in. */
  lemma NoneUpTo(x: string, z: string, a: string, b: string)
    requires Disjoint(a, b) && Find(x + (a + z), a, 0) == |x|
    ensures forall i :: 0 <= i < |x| + |b| ==> !OccursAt(x + (b + z), a, i)
  {
    forall i | 0 <= i < |x| + |b|
      ensures !OccursAt(x + (b + z), a, i)
    {
      NotHere(x, z, a, b, i);
    }
  }

  lemma CutHere(front: string, rest: string, a: string, b: string, p: nat, done: string)
    requires OccursAt(rest, a, p)
    ensures var x, z := front + rest[..p], rest[p + |a|..];
            && front + rest == x + (a + z)
            && x + (b + done) == front + (rest[..p] + b + done)
  {
    assert rest == rest[..p] + (rest[p..p + |a|] + rest[p + |a|..]);
  }

  /** With nothing left before the end of `front`, the rounds go through `rest` like the one pass does. */
  lemma {:induction false} OneByOne(s: string, front: string, rest: string, a: string, b: string) returns (n: nat)
    requires Disjoint(a, b) && s == front + rest
    requires forall i :: 0 <= i < |front| ==> !OccursAt(s, a, i)
    ensures Rounds(s, a, b, n) == front + ReplaceAll(rest, a, b)
    ensures !Contains(front + ReplaceAll(rest, a, b), a)
    decreases |rest|, 0
  {
    var p := Find(rest, a, 0);
    FindSkips(s, a, 0, |front|);
    FindBehind(front, rest, a, 0, p);
    ReplaceBySearch(rest, a, b, p);
    if p == -1 {
      n := 0;
    } else {
      var x, z := front + rest[..p], rest[p + |a|..];
      CutHere(front, rest, a, b, p, ReplaceAll(z, a, b));
      n := NextOne(s, x, z, a, b);
    }
  }

  lemma {:induction false} NextOne(s: string, x: string, z: string, a: string, b: string) returns (n: nat)
    requires Disjoint(a, b) && s == x + (a + z) && Find(s, a, 0) == |x|
    ensures Rounds(s, a, b, n) == x + (b + ReplaceAll(z, a, b))
    ensures !Contains(x + (b + ReplaceAll(z, a, b)), a)
    decreases |z|, 1
  {
    NoneUpTo(x, z, a, b);
    var done := ReplaceAll(z, a, b);
    Seams(x, b, z, done);
    var m := OneByOne(x + (b + z), x + b, z, a, b);
    n := m + 1;
    RoundAt(s, x, z, a, b, m);
  }

  lemma Seams(x: string, b: string, z: string, done: string)
    ensures x + (b + z) == (x + b) + z && (x + b) + done == x + (b + done)
  {
  }

  lemma RoundAt(s: string, x: string, z: string, a: string, b: string, n: nat)
    requires s == x + (a + z) && Find(s, a, 0) == |x|
    ensures Rounds(s, a, b, n + 1) == Rounds(x + (b + z), a, b, n)
  {
    SpliceAfter(x, a, z, b);
  }

  /** Then replacing until nothing is left ends on every text, and does what the one pass does. */
  lemma UntilGoneIsOnePass(s: string, a: string, b: string) returns (n: nat)
    requires Disjoint(a, b)
    ensures Rounds(s, a, b, n) == ReplaceAll(s, a, b) && !Contains(ReplaceAll(s, a, b), a)
  {
    assert [] + s == s && [] + ReplaceAll(s, a, b) == ReplaceAll(s, a, b);
    n := OneByOne(s, [], s, a, b);
  }

  lemma {:induction false} GrowingFits(size: nat, s: string, a: string, b: string, n: nat)
    requires |b| >= |a| && |Rounds(s, a, b, n)| < size
    ensures RoomForRounds(size, s, a, b, n) && |s| <= |Rounds(s, a, b, n)|
    decreases n
  {
    var p := Find(s, a, 0);
    if n > 0 && p != -1 {
      GrowingFits(size, Splice(s, p, |a|, b), a, b, n - 1);
    }
  }

  /** Every run of slashes becomes a single slash. */
  function Collapse(s: string): string {
    if |s| < 2 then s
    else if s[0] == '/' && s[1] == '/' then Collapse(s[1..])
    else [s[0]] + Collapse(s[1..])
  }

  lemma {:induction false} CollapseSplice(s: string, p: nat)
    requires OccursAt(s, "//", p)
    ensures Collapse(Splice(s, p, 2, "/")) == Collapse(s)
    decreases p
  {
    var t := Splice(s, p, 2, "/");
    assert s[p] == s[p..p + 2][0] && s[p + 1] == s[p..p + 2][1];
    if p == 0 {
      assert t == s[1..];
    } else {
      assert s[1..][p - 1..p + 1] == s[p..p + 2];
      CollapseSplice(s[1..], p - 1);
      assert t[1..] == Splice(s[1..], p - 1, 2, "/");
      assert t[0] == s[0] && t[1] == s[1];
    }
  }

  lemma {:induction false} CollapseClean(s: string)
    requires !Contains(s, "//")
    ensures Collapse(s) == s
  {
    if |s| >= 2 {
      assert !OccursAt(s, "//", 0);
      assert s[0..2] == [s[0], s[1]];
      forall i | 0 <= i
        ensures !OccursAt(s[1..], "//", i)
      {
        if i + 3 <= |s| {
          assert s[1..][i..i + 2] == s[i + 1..i + 3];
        }
        assert !OccursAt(s, "//", i + 1);
      }
      CollapseClean(s[1..]);
    }
  }

  /** The use in directory paths: replacing "//" by "/" until none is left collapses every run of slashes. */
  lemma {:induction false} FixpointOfSlashes(s: string)
    ensures Stops("//", "/") && Fixpoint(s, "//", "/") == Collapse(s)
    decreases |s|
  {
    FindIs("/", "//", 0, -1);
    var p := Find(s, "//", 0);
    if p == -1 {
      CollapseClean(s);
    } else {
      CollapseSplice(s, p);
      FixpointOfSlashes(Splice(s, p, 2, "/"));
    }
  }

  // ---------- where replacing until nothing is left goes on for ever ----------

  /** Where "ab" is first seen behind text that holds no "a", save perhaps at its end. */
  lemma FindAfter(front: string, pat: string, rest: string)
    requires pat == "ab"
    requires forall i :: 0 <= i < |front| - 1 ==> front[i] != 'a'
    ensures Find(front + (pat + rest), pat, 0) == |front|
  {
    var s := front + (pat + rest);
    assert s[|front|..|front| + 2] == pat;
    forall i | 0 <= i < |front|
      ensures !OccursAt(s, pat, i)
    {
      assert s[i..i + 2][0] == s[i] && s[i..i + 2][1] == s[i + 1];
      assert i == |front| - 1 ==> s[i + 1] == 'a';
    }
    FindIs(s, pat, 0, |front|);
  }

  lemma SpliceAfter(front: string, pat: string, rest: string, b: string)
    ensures Splice(front + (pat + rest), |front|, |pat|, b) == front + (b + rest)
  {
  }

  lemma OneRound(front: string, rest: string, a: string, b: string, n: nat)
    requires a == "ab" && forall i :: 0 <= i < |front| - 1 ==> front[i] != 'a'
    ensures Rounds(front + (a + rest), a, b, n + 1) == Rounds(front + (b + rest), a, b, n)
  {
    FindAfter(front, a, rest);
    RoundAt(front + (a + rest), front, rest, a, b, n);
  }

  /** One round on "ab" behind "a", and one more on the "ab" this makes. */
  lemma TwoRounds(x: string, y: string, a: string, b: string, n: nat)
    requires 'a' !in x && a == "ab" && b == "bbaa"
    ensures Rounds((x + "a") + (a + y), a, b, n + 2) == Rounds(((x + "bb") + "a") + (a + ("aa" + y)), a, b, n)
  {
    Regroup(x, y, a, b);
    OneRound(x + "a", y, a, b, n + 1);
    OneRound(x, "baa" + y, a, b, n);
  }

  lemma Regroup(x: string, y: string, a: string, b: string)
    requires a == "ab" && b == "bbaa"
    ensures (x + "a") + (b + y) == x + (a + ("baa" + y))
    ensures x + (b + ("baa" + y)) == ((x + "bb") + "a") + (a + ("aa" + y))
  {
  }

  lemma GuardPasses(a: string, b: string)
    requires a == "ab" && b == "bbaa"
    ensures !Contains(b, a)
  {
    forall i | 0 <= i <= 2
      ensures !OccursAt(b, a, i)
    {
      assert b[i..i + 2][0] == b[i] && b[i..i + 2][1] == b[i + 1];
    }
    FindIs(b, a, 0, -1);
  }

  /** The only guard of the loop is that the new text does not contain the old one.  That is not enough:
      with "ab" to "bbaa" the text "aab", alone or behind text without "a", is never done, however many
      rounds are made. */
  lemma {:induction false} GuardDoesNotStop(x: string, y: string, a: string, b: string, n: nat)
    requires 'a' !in x && a == "ab" && b == "bbaa"
    ensures !Contains(b, a)
    ensures Contains(Rounds((x + "a") + (a + y), a, b, 2 * n), a)
    decreases n
  {
    GuardPasses(a, b);
    if n == 0 {
      FindAfter(x + "a", a, y);
    } else {
      var m := 2 * (n - 1);
      assert 2 * n == m + 2;
      TwoRounds(x, y, a, b, m);
      GuardDoesNotStop(x + "bb", "aa" + y, a, b, n - 1);
    }
  }
}
