/**
 Which of the longest matchings the diff takes: the common head by identity, the common tail by the difference in
 length, and between them, of all longest matchings, the one with the latest elements of a.
 */
module LcsChoice {
  import opened Options
  import opened Lcs
  import opened Lists

  // ----- The ends -----

  /** h is the length of the longest common head. */
  ghost predicate IsLongestHead<T>(a: seq<T>, b: seq<T>, h: nat)
  {
    && h <= |a| && h <= |b| && (forall k {:trigger a[k]} :: 0 <= k < h ==> a[k] == b[k])
    && (h == |a| || h == |b| || a[h] != b[h])
  }

  lemma {:induction false} LongestHeadIsTrimmed<T>(a: seq<T>, b: seq<T>, h: nat)
    requires IsLongestHead(a, b, h)
    ensures CommonHead(a, b) == h
  {
    CommonHeadIsTrimmed(a, b, h);
  }

  lemma {:induction false} CommonHeadIsTrimmed<T>(a: seq<T>, b: seq<T>, n: nat)
    requires n <= |a| && n <= |b| && forall k {:trigger a[k]} :: 0 <= k < n ==> a[k] == b[k]
    ensures n <= CommonHead(a, b)
  {
  }

  lemma {:induction false} BacktrackKeepsHead<T>(a: seq<T>, b: seq<T>, h: nat, i: nat, j: nat, k: nat)
    requires InRange(a, b, h, i, j) && k < h
    ensures Forward(a, b, h, i, j)[k] == Some(k) && Backward(a, b, h, i, j)[k] == Some(k)
    decreases i + j
  {
    if LastEqual(a, b, h, i, j) {
      BacktrackKeepsHead(a, b, h, i - 1, j - 1, k);
    } else if DropsNew(a, b, h, i, j) {
      BacktrackKeepsHead(a, b, h, i, j - 1, k);
    } else if i > 0 {
      BacktrackKeepsHead(a, b, h, i - 1, j, k);
    }
  }

  /** An element up to which a and b agree is matched with itself. */
  lemma {:induction false} HeadIsIdentity<T>(a: seq<T>, b: seq<T>, k: nat)
    requires k < |a| && k < |b| && forall x {:trigger a[x]} :: 0 <= x <= k ==> a[x] == b[x]
    ensures DiffForward(a, b)[k] == Some(k) && DiffBackward(a, b)[k] == Some(k)
  {
    var h, t := CommonHead(a, b), CommonTail(a, b);
    CommonHeadIsTrimmed(a, b, k + 1);
    BacktrackKeepsHead(a, b, h, |a| - h - t, |b| - h - t, k);
  }

  lemma {:induction false} CommonTailIsTrimmed<T>(a: seq<T>, b: seq<T>, h: nat, n: nat)
    requires h == CommonHead(a, b) && h + n <= |a| && h + n <= |b|
    requires forall x {:trigger a[x]} :: |a| - n <= x < |a| ==> a[x] == b[x - |a| + |b|]
    ensures n <= CommonTail(a, b)
  {
  }

  /** An element from which on both agree, behind their longest common head, is matched at its distance to the end. */
  lemma {:induction false} TailKeepsDistance<T>(a: seq<T>, b: seq<T>, h: nat, k: nat)
    requires IsLongestHead(a, b, h) && h + k < |a| && h + k < |b|
    requires forall x {:trigger a[x]} :: |a| - 1 - k <= x < |a| ==> a[x] == b[x - |a| + |b|]
    ensures DiffForward(a, b)[|a| - 1 - k] == Some(|b| - 1 - k)
    ensures DiffBackward(a, b)[|b| - 1 - k] == Some(|a| - 1 - k)
  {
    LongestHeadIsTrimmed(a, b, h);
    CommonTailIsTrimmed(a, b, h, k + 1);
  }

  // ----- The trim of the tail changes nothing -----

  lemma {:induction false} ForwardTakesTail<T>(a: seq<T>, b: seq<T>, h: nat, m: nat, n: nat, k: nat, i: nat, j: nat)
    requires InRange(a, b, h, i, j) && i == m + k && j == n + k
    requires forall x {:trigger a[x]} :: h + m <= x < h + i ==> a[x] == b[x - m + n]
    ensures Forward(a, b, h, i, j) == WithTail(Forward(a, b, h, m, n), h + n, k)
    decreases k
  {
    if k > 0 {
      ForwardTakesTail(a, b, h, m, n, k - 1, i - 1, j - 1);
      assert a[h + i - 1] == b[h + j - 1];
    }
  }

  lemma {:induction false} BackwardTakesTail<T>(a: seq<T>, b: seq<T>, h: nat, m: nat, n: nat, k: nat, i: nat, j: nat)
    requires InRange(a, b, h, i, j) && i == m + k && j == n + k
    requires forall x {:trigger a[x]} :: h + m <= x < h + i ==> a[x] == b[x - m + n]
    ensures Backward(a, b, h, i, j) == WithTail(Backward(a, b, h, m, n), h + m, k)
    decreases k
  {
    if k > 0 {
      BackwardTakesTail(a, b, h, m, n, k - 1, i - 1, j - 1);
      assert a[h + i - 1] == b[h + j - 1];
    }
  }

  /** The diff is what backtracking from the whole of a and b behind their common head would give. */
  lemma {:induction false} TailTrimIsFree<T>(a: seq<T>, b: seq<T>, h: nat, i: nat, j: nat)
    requires IsLongestHead(a, b, h) && h + i == |a| && h + j == |b|
    ensures DiffForward(a, b) == Forward(a, b, h, i, j)
    ensures DiffBackward(a, b) == Backward(a, b, h, i, j)
  {
    LongestHeadIsTrimmed(a, b, h);
    TailTrimIs(a, b, h, CommonTail(a, b), i, j);
  }

  lemma {:induction false} TailTrimIs<T>(a: seq<T>, b: seq<T>, h: nat, t: nat, i: nat, j: nat)
    requires h + i == |a| && h + j == |b| && t <= i && t <= j && SameTail(a, b, t)
    ensures WithTail(Forward(a, b, h, i - t, j - t), |b| - t, t) == Forward(a, b, h, i, j)
    ensures WithTail(Backward(a, b, h, i - t, j - t), |a| - t, t) == Backward(a, b, h, i, j)
  {
    ForwardTakesTail(a, b, h, i - t, j - t, t, i, j);
    BackwardTakesTail(a, b, h, i - t, j - t, t, i, j);
  }

  // ----- Runs of equal elements stay together -----

  lemma {:induction false} BacktrackExtendsBack<T>(a: seq<T>, b: seq<T>, h: nat, i: nat, j: nat, x: nat, y: nat)
    requires InRange(a, b, h, i, j) && h < x && h < y
    requires Maps(Forward(a, b, h, i, j), x, y) && x <= |a| && y <= |b| && a[x - 1] == b[y - 1]
    ensures Maps(Forward(a, b, h, i, j), x - 1, y - 1)
    decreases i + j
  {
    if LastEqual(a, b, h, i, j) {
      if x < h + i - 1 {
        BacktrackExtendsBack(a, b, h, i - 1, j - 1, x, y);
      } else {
        assert LastEqual(a, b, h, i - 1, j - 1);
      }
    } else if DropsNew(a, b, h, i, j) {
      BacktrackExtendsBack(a, b, h, i, j - 1, x, y);
    } else if i > 0 {
      BacktrackExtendsBack(a, b, h, i - 1, j, x, y);
    }
  }

  /** Behind the common head, what stands before two matched elements is matched as well if it is equal. */
  lemma {:induction false} RunsExtendBack<T>(a: seq<T>, b: seq<T>, h: nat, x: nat, y: nat)
    requires IsLongestHead(a, b, h) && h < x < |a| && h < y < |b|
    requires Maps(DiffForward(a, b), x, y) && a[x - 1] == b[y - 1]
    ensures Maps(DiffForward(a, b), x - 1, y - 1)
  {
    TailTrimIsFree(a, b, h, |a| - h, |b| - h);
    BacktrackExtendsBack(a, b, h, |a| - h, |b| - h, x, y);
  }

  // ----- Of the longest matchings the one with the latest elements of a -----

  /** A longest matching of the prefixes, of those that take the head by identity. */
  ghost predicate IsLongest<T>(a: seq<T>, b: seq<T>, h: nat, i: nat, j: nat, ps: seq<(nat, nat)>)
    requires InRange(a, b, h, i, j)
  {
    && IsMatching(a, b, h + i, h + j, ps) && |ps| == h + Length(a, b, h, i, j)
    && forall k {:trigger ps[k]} :: 0 <= k < h ==> ps[k] == (k, k)
  }

  /** No element of a in qs is earlier than the one in its place in ps. */
  predicate NoneLater(ps: seq<(nat, nat)>, qs: seq<(nat, nat)>)
  {
    |ps| == |qs| && forall k {:trigger qs[k]} :: 0 <= k < |qs| ==> ps[k].0 <= qs[k].0
  }

  /** Two pairs in the same place of two longest matchings are not one behind the other. */
  lemma {:induction false} SamePlace<T>(a: seq<T>, b: seq<T>, m: nat, n: nat, ps: seq<(nat, nat)>,
                                        qs: seq<(nat, nat)>, k: nat)
    requires m <= |a| && n <= |b| && IsMatching(a, b, m, n, ps) && IsMatching(a, b, m, n, qs)
    requires k < |ps| == |qs| == Length(a, b, 0, m, n)
    ensures !(ps[k].0 > qs[k].0 && ps[k].1 > qs[k].1)
  {
    if ps[k].0 > qs[k].0 && ps[k].1 > qs[k].1 {
      var spliced := qs[..k + 1] + ps[k..];
      assert forall x {:trigger spliced[x]} :: 0 <= x < |spliced| ==> spliced[x] == if x <= k then qs[x] else ps[x - 1];
      assert IsMatching(a, b, m, n, spliced);
      NoMatchingIsLonger(a, b, m, n, spliced);
    }
  }

  function Latest(p: (nat, nat), q: (nat, nat)): (nat, nat)
  {
    (Max(p.0, q.0), if p.1 < q.1 then p.1 else q.1)
  }

  /** Place by place, the later element of a and the earlier one of b. */
  function AllLatest(ps: seq<(nat, nat)>, qs: seq<(nat, nat)>): (r: seq<(nat, nat)>)
    requires |ps| == |qs|
    ensures |r| == |ps|
    ensures forall k {:trigger r[k]} :: 0 <= k < |r| ==> r[k] == Latest(ps[k], qs[k])
  {
    seq(|ps|, k requires 0 <= k < |ps| => Latest(ps[k], qs[k]))
  }

  lemma {:induction false} LatestIsMatching<T>(a: seq<T>, b: seq<T>, m: nat, n: nat, n': nat, ps: seq<(nat, nat)>,
                                               qs: seq<(nat, nat)>)
    requires m <= |a| && n' <= n <= |b| && IsMatching(a, b, m, n, ps) && IsMatching(a, b, m, n', qs)
    requires |ps| == |qs| == Length(a, b, 0, m, n)
    ensures IsMatching(a, b, m, n', AllLatest(ps, qs))
  {
    var r := AllLatest(ps, qs);
    forall k | 0 <= k < |r|
      ensures r[k].0 < m && r[k].1 < n' && a[r[k].0] == b[r[k].1]
    {
      SamePlace(a, b, m, n, ps, qs, k);
      SamePlace(a, b, m, n, qs, ps, k);
      assert r[k] == ps[k] || r[k] == qs[k];
    }
  }

  function BacktrackPairs<T(==)>(a: seq<T>, b: seq<T>, h: nat, i: nat, j: nat): seq<(nat, nat)>
    requires InRange(a, b, h, i, j)
  {
    Pairs(Forward(a, b, h, i, j), h + i)
  }

  lemma {:induction false} PairsOfPrefix(f: seq<Option<nat>>, g: seq<Option<nat>>, n: nat)
    requires n <= |f| && n <= |g| && forall k {:trigger f[k]} :: 0 <= k < n ==> f[k] == g[k]
    ensures Pairs(f, n) == Pairs(g, n)
  {
    if n > 0 {
      PairsOfPrefix(f, g, n - 1);
    }
  }

  lemma {:induction false} PairsOfIdentity(f: seq<Option<nat>>, h: nat, n: nat)
    requires h <= n <= |f| && forall k {:trigger f[k]} :: 0 <= k < h ==> f[k] == Some(k)
    ensures h <= |Pairs(f, n)| && forall k {:trigger Pairs(f, n)[k]} :: 0 <= k < h ==> Pairs(f, n)[k] == (k, k)
    ensures n == h ==> |Pairs(f, n)| == h
  {
    if h < n {
      PairsOfIdentity(f, h, n - 1);
    } else if n > 0 {
      PairsOfIdentity(f, h - 1, n - 1);
    }
  }

  lemma {:induction false} BacktrackIsLongest<T>(a: seq<T>, b: seq<T>, h: nat, i: nat, j: nat)
    requires InRange(a, b, h, i, j) && SameHead(a, b, h)
    ensures IsLongest(a, b, h, i, j, BacktrackPairs(a, b, h, i, j))
  {
    var f := Forward(a, b, h, i, j);
    BacktrackAligns(a, b, h, i, j);
    AlignmentIsMatching(a, b, f, Backward(a, b, h, i, j));
    BacktrackMatchesCell(a, b, h, i, j);
    PairsOfMap(f, h + i);
    forall k {:trigger f[k]} | 0 <= k < h
      ensures f[k] == Some(k)
    {
      BacktrackKeepsHead(a, b, h, i, j, k);
    }
    PairsOfIdentity(f, h, h + i);
  }

  /** No matching that takes the head by identity is longer than a cell says. */
  lemma {:induction false} NoneIsLonger<T>(a: seq<T>, b: seq<T>, h: nat, i: nat, j: nat, ps: seq<(nat, nat)>)
    requires InRange(a, b, h, i, j) && SameHead(a, b, h) && IsMatching(a, b, h + i, h + j, ps)
    ensures |ps| <= h + Length(a, b, h, i, j) == Length(a, b, 0, h + i, h + j)
  {
    HeadIsLossless(a, b, h, i, j, h + i, h + j);
    NoMatchingIsLonger(a, b, h + i, h + j, ps);
  }

  lemma {:induction false} BacktrackIsLatest<T>(a: seq<T>, b: seq<T>, h: nat, i: nat, j: nat, ps: seq<(nat, nat)>)
    requires InRange(a, b, h, i, j) && SameHead(a, b, h) && IsLongest(a, b, h, i, j, ps)
    ensures NoneLater(ps, BacktrackPairs(a, b, h, i, j))
    decreases i + j
  {
    if LastEqual(a, b, h, i, j) {
      LatestByMatch(a, b, h, i, j, ps);
    } else if DropsNew(a, b, h, i, j) {
      var rs := LaterThanDropped(a, b, h, i, j, ps);
      BacktrackIsLatest(a, b, h, i, j - 1, rs);
    } else if i > 0 {
      DroppedOld(a, b, h, i, j, ps);
      PairsOfPrefix(Forward(a, b, h, i, j), Forward(a, b, h, i - 1, j), h + i - 1);
      BacktrackIsLatest(a, b, h, i - 1, j, ps);
    } else {
      BacktrackIsLongest(a, b, h, i, j);
    }
  }

  /** When the backtrack drops the last element of b, some longest matching without it is nowhere earlier than ps. */
  lemma {:induction false} LaterThanDropped<T>(a: seq<T>, b: seq<T>, h: nat, i: nat, j: nat, ps: seq<(nat, nat)>)
    returns (rs: seq<(nat, nat)>)
    requires InRange(a, b, h, i, j) && SameHead(a, b, h) && IsLongest(a, b, h, i, j, ps)
    requires j > 0 && Length(a, b, h, i, j - 1) == Length(a, b, h, i, j)
    ensures IsLongest(a, b, h, i, j - 1, rs) && NoneLater(ps, rs)
  {
    var qs := BacktrackPairs(a, b, h, i, j - 1);
    BacktrackIsLongest(a, b, h, i, j - 1);
    NoneIsLonger(a, b, h, i, j, ps);
    LatestIsMatching(a, b, h + i, h + j, h + j - 1, ps, qs);
    rs := AllLatest(ps, qs);
  }

  lemma {:induction false} LatestByMatch<T>(a: seq<T>, b: seq<T>, h: nat, i: nat, j: nat, ps: seq<(nat, nat)>)
    requires InRange(a, b, h, i, j) && SameHead(a, b, h) && IsLongest(a, b, h, i, j, ps) && LastEqual(a, b, h, i, j)
    ensures NoneLater(ps, BacktrackPairs(a, b, h, i, j))
    decreases i + j, 0
  {
    var first := ps[..|ps| - 1];
    FirstIsLongest(a, b, h, i, j, ps, first);
    BacktrackIsLatest(a, b, h, i - 1, j - 1, first);
    PairsOfPrefix(Forward(a, b, h, i, j), Forward(a, b, h, i - 1, j - 1), h + i - 1);
  }

  lemma {:induction false} FirstIsLongest<T>(a: seq<T>, b: seq<T>, h: nat, i: nat, j: nat, ps: seq<(nat, nat)>,
                                             first: seq<(nat, nat)>)
    requires InRange(a, b, h, i, j) && IsLongest(a, b, h, i, j, ps) && LastEqual(a, b, h, i, j)
    requires |ps| > h && first == ps[..|ps| - 1]
    ensures IsLongest(a, b, h, i - 1, j - 1, first)
  {
    var last := ps[|ps| - 1];
    forall k | 0 <= k < |first|
      ensures first[k].0 < h + i - 1 && first[k].1 < h + j - 1
    {
      assert ps[k].0 < last.0 && ps[k].1 < last.1;
    }
  }

  /** When the backtrack drops the last element of a, no longest matching takes it. */
  lemma {:induction false} DroppedOld<T>(a: seq<T>, b: seq<T>, h: nat, i: nat, j: nat, ps: seq<(nat, nat)>)
    requires InRange(a, b, h, i, j) && SameHead(a, b, h) && IsLongest(a, b, h, i, j, ps)
    requires i > 0 && !LastEqual(a, b, h, i, j) && !DropsNew(a, b, h, i, j)
    ensures IsLongest(a, b, h, i - 1, j, ps)
  {
    if |ps| > 0 && ps[|ps| - 1].0 == h + i - 1 && j > 0 {
      assert IsMatching(a, b, h + i, h + j - 1, ps);
      NoneIsLonger(a, b, h, i, j - 1, ps);
    }
  }

  lemma {:induction false} DiffPairsAre<T>(a: seq<T>, b: seq<T>, h: nat, i: nat, j: nat)
    requires IsLongestHead(a, b, h) && h + i == |a| && h + j == |b|
    ensures Pairs(DiffForward(a, b), |a|) == BacktrackPairs(a, b, h, i, j)
    ensures WholeLength(a, b) == h + Length(a, b, h, i, j)
  {
    TailTrimIsFree(a, b, h, i, j);
    HeadIsLossless(a, b, h, i, j, |a|, |b|);
  }

  /**
   Of all longest matchings that take the common head by identity, as the diff does, it takes in every place the latest
   element of a.
   */
  lemma {:induction false} DiffIsLatest<T>(a: seq<T>, b: seq<T>, h: nat, ps: seq<(nat, nat)>)
    requires IsLongestHead(a, b, h) && IsMatching(a, b, |a|, |b|, ps) && |ps| == WholeLength(a, b)
    requires h <= |ps| && forall k {:trigger ps[k]} :: 0 <= k < h ==> ps[k] == (k, k)
    ensures NoneLater(ps, Pairs(DiffForward(a, b), |a|))
  {
    DiffPairsAre(a, b, h, |a| - h, |b| - h);
    BacktrackIsLatest(a, b, h, |a| - h, |b| - h, ps);
  }

  // ----- And which elements of b -----

  /** p is the last pair that the backtrack from (i, j) takes. */
  predicate EndsWith<T(==)>(a: seq<T>, b: seq<T>, h: nat, i: nat, j: nat, p: (nat, nat))
    requires InRange(a, b, h, i, j)
  {
    && h <= p.0 < h + i && h <= p.1 < h + j
    && BacktrackPairs(a, b, h, i, j) == BacktrackPairs(a, b, h, p.0 - h, p.1 - h) + [p]
  }

  /**
   The pair p comes next before (m, n): if it takes the element of a just before, then with the last equal one of b; if
   not, no longest matching of the prefixes makes do with fewer elements of b.
   */
  predicate IsNext<T(==)>(a: seq<T>, b: seq<T>, m: nat, n: nat, p: (nat, nat))
    requires p.0 < m <= |a| && p.1 < n <= |b|
  {
    if p.0 == m - 1 then forall z {:trigger b[z]} :: p.1 < z < n ==> a[p.0] != b[z]
    else Length(a, b, 0, m, p.1) < Length(a, b, 0, m, n)
  }

  lemma {:induction false} LastPair<T>(a: seq<T>, b: seq<T>, h: nat, i: nat, j: nat) returns (p: (nat, nat))
    requires InRange(a, b, h, i, j) && SameHead(a, b, h) && Length(a, b, h, i, j) > 0
    ensures EndsWith(a, b, h, i, j, p) && IsNext(a, b, h + i, h + j, p)
    decreases i + j
  {
    if LastEqual(a, b, h, i, j) {
      p := (h + i - 1, h + j - 1);
      PairsOfPrefix(Forward(a, b, h, i, j), Forward(a, b, h, i - 1, j - 1), h + i - 1);
    } else if DropsNew(a, b, h, i, j) {
      p := LastPair(a, b, h, i, j - 1);
      DroppedNewKeepsNext(a, b, h, i, j, p);
    } else {
      p := LastPair(a, b, h, i - 1, j);
      PairsOfPrefix(Forward(a, b, h, i, j), Forward(a, b, h, i - 1, j), h + i - 1);
      DroppedOldKeepsNext(a, b, h, i, j, p);
    }
  }

  lemma {:induction false} DroppedNewKeepsNext<T>(a: seq<T>, b: seq<T>, h: nat, i: nat, j: nat, p: (nat, nat))
    requires InRange(a, b, h, i, j) && SameHead(a, b, h) && i > 0
    requires !LastEqual(a, b, h, i, j) && DropsNew(a, b, h, i, j)
    requires p.0 < h + i && p.1 < h + j - 1 && IsNext(a, b, h + i, h + j - 1, p)
    ensures IsNext(a, b, h + i, h + j, p)
  {
    HeadIsLossless(a, b, h, i, j, h + i, h + j);
    HeadIsLossless(a, b, h, i, j - 1, h + i, h + j - 1);
  }

  lemma {:induction false} DroppedOldKeepsNext<T>(a: seq<T>, b: seq<T>, h: nat, i: nat, j: nat, p: (nat, nat))
    requires InRange(a, b, h, i, j) && SameHead(a, b, h) && i > 0 && j > 0
    requires Length(a, b, h, i, j - 1) < Length(a, b, h, i, j)
    requires p.0 < h + i - 1 && h <= p.1 < h + j
    ensures IsNext(a, b, h + i, h + j, p)
  {
    HeadIsLossless(a, b, h, i, j, h + i, h + j);
    HeadIsLossless(a, b, h, i, p.1 - h, h + i, p.1);
    LengthsAscend(a, b, h, i, p.1 - h, j - 1);
  }

  lemma {:induction false} LengthsAscend<T>(a: seq<T>, b: seq<T>, h: nat, i: nat, j: nat, j': nat)
    requires j <= j' && InRange(a, b, h, i, j') && SameHead(a, b, h)
    ensures Length(a, b, h, i, j) <= Length(a, b, h, i, j')
  {
    BacktrackIsLongest(a, b, h, i, j);
    NoneIsLonger(a, b, h, i, j', BacktrackPairs(a, b, h, i, j));
  }

  /** The k-th pair comes next before the one behind it, the last before (m, n). */
  predicate FollowsNext<T(==)>(a: seq<T>, b: seq<T>, m: nat, n: nat, ps: seq<(nat, nat)>, k: nat)
    requires k < |ps|
  {
    var next := if k + 1 < |ps| then ps[k + 1] else (m, n);
    ps[k].0 < next.0 <= |a| && ps[k].1 < next.1 <= |b| && IsNext(a, b, next.0, next.1, ps[k])
  }

  lemma {:induction false} PairsFollowNext<T>(a: seq<T>, b: seq<T>, h: nat, i: nat, j: nat, k: nat)
    requires InRange(a, b, h, i, j) && SameHead(a, b, h) && h <= k < |BacktrackPairs(a, b, h, i, j)|
    ensures FollowsNext(a, b, h + i, h + j, BacktrackPairs(a, b, h, i, j), k)
    decreases i + j
  {
    var ps := BacktrackPairs(a, b, h, i, j);
    BacktrackIsLongest(a, b, h, i, j);
    var p := LastPair(a, b, h, i, j);
    if k < |ps| - 1 {
      PairsFollowNext(a, b, h, p.0 - h, p.1 - h, k);
    }
  }

  /**
   So the diff is fixed by its common head and this: going back from the ends, or from the pair behind, its next pair
   takes the element of a just before with the last equal element of b, if that is part of a longest matching, and else
   the latest element of a that is, with the earliest of b (DiffIsLatest).
   */
  lemma {:induction false} DiffPairsFollowNext<T>(a: seq<T>, b: seq<T>, h: nat, k: nat)
    requires IsLongestHead(a, b, h) && h <= k < |Pairs(DiffForward(a, b), |a|)|
    ensures FollowsNext(a, b, |a|, |b|, Pairs(DiffForward(a, b), |a|), k)
  {
    DiffPairsAre(a, b, h, |a| - h, |b| - h);
    PairsFollowNext(a, b, h, |a| - h, |b| - h, k);
  }
}
