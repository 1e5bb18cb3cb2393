/**
 Longest common subsequences: the reference notion (order-preserving matchings), the recursion over prefixes
 that the table of LineMapper::Diff tabulates, the alignment that its backtrack reads off, and the trimming of
 common heads and tails. Everything speaks of indices into the two whole sequences: a pair of prefixes is given
 by how many elements i of a and j of b follow the first h elements of both.
 */
module Lcs {
  import opened Options

  predicate InRange<T>(a: seq<T>, b: seq<T>, h: nat, i: nat, j: nat)
  {
    h + i <= |a| && h + j <= |b|
  }

  /** The length of a longest common subsequence of a[h..h+i] and b[h..h+j], by the recursion the table follows. */
  function Length<T(==)>(a: seq<T>, b: seq<T>, h: nat, i: nat, j: nat): (len: nat)
    requires InRange(a, b, h, i, j)
    ensures len <= i && len <= j
    decreases i + j
  {
    if i == 0 || j == 0 then 0
    else if a[h + i - 1] == b[h + j - 1] then Length(a, b, h, i - 1, j - 1) + 1
    else Max(Length(a, b, h, i, j - 1), Length(a, b, h, i - 1, j))
  }

  function Max(x: nat, y: nat): nat
  {
    if x < y then y else x
  }

  /** The length of a longest common subsequence of the whole of a and b. */
  function WholeLength<T(==)>(a: seq<T>, b: seq<T>): nat
  {
    Length(a, b, 0, |a|, |b|)
  }

  // ----- The reference notion: order-preserving matchings -----

  /** ps pairs equal elements of the first m of a and the first n of b, increasing strictly on both sides. */
  ghost predicate IsMatching<T>(a: seq<T>, b: seq<T>, m: nat, n: nat, ps: seq<(nat, nat)>)
    requires m <= |a| && n <= |b|
  {
    && (forall k :: 0 <= k < |ps| ==> ps[k].0 < m && ps[k].1 < n && a[ps[k].0] == b[ps[k].1])
    && (forall k, l :: 0 <= k < l < |ps| ==> ps[k].0 < ps[l].0 && ps[k].1 < ps[l].1)
  }

  lemma {:induction false} NoMatchingIsLonger<T>(a: seq<T>, b: seq<T>, m: nat, n: nat, ps: seq<(nat, nat)>)
    requires m <= |a| && n <= |b|
    requires IsMatching(a, b, m, n, ps)
    ensures |ps| <= Length(a, b, 0, m, n)
    decreases m + n
  {
    if |ps| == 0 {
      return;
    }
    assert ps[|ps| - 1].0 < m && ps[|ps| - 1].1 < n;
    if a[m - 1] == b[n - 1] {
      NoMatchingIsLonger(a, b, m - 1, n - 1, ps[..|ps| - 1]);
    } else if ps[|ps| - 1].1 < n - 1 {
      NoMatchingIsLonger(a, b, m, n - 1, ps);
    } else {
      NoMatchingIsLonger(a, b, m - 1, n, ps);
    }
  }

  // ----- Alignments: a pair of mutually inverse, order-preserving partial maps -----

  predicate Maps(f: seq<Option<nat>>, i: nat, j: nat)
  {
    i < |f| && f[i] == Some(j)
  }

  /**
   f maps indices of a to indices of b and g maps back, over the prefixes they cover. Both are partial, each
   inverts the other, only equal elements are matched and the matched pairs increase strictly on both sides.
   */
  ghost predicate IsAlignment<T>(a: seq<T>, b: seq<T>, f: seq<Option<nat>>, g: seq<Option<nat>>)
  {
    && |f| <= |a| && |g| <= |b|
    && (forall i: nat, j: nat :: Maps(f, i, j) <==> Maps(g, j, i))
    && (forall i: nat, j: nat {:trigger Maps(f, i, j)} :: Maps(f, i, j) ==> j < |g| && a[i] == b[j])
    && (forall i: nat, j: nat, i': nat, j': nat :: Maps(f, i, j) && Maps(f, i', j') && i < i' ==> j < j')
  }

  lemma {:induction false} AppendMaps(f: seq<Option<nat>>, x: Option<nat>)
    ensures forall i: nat, j: nat {:trigger Maps(f + [x], i, j)} ::
              Maps(f + [x], i, j) <==> Maps(f, i, j) || (i == |f| && x == Some(j))
  {
  }

  lemma {:induction false} MatchExtends<T>(a: seq<T>, b: seq<T>, f: seq<Option<nat>>, g: seq<Option<nat>>)
    requires IsAlignment(a, b, f, g)
    requires |f| < |a| && |g| < |b| && a[|f|] == b[|g|]
    ensures IsAlignment(a, b, f + [Some(|g|)], g + [Some(|f|)])
  {
    AppendMaps(f, Some(|g|));
    AppendMaps(g, Some(|f|));
  }

  lemma {:induction false} DropExtends<T>(a: seq<T>, b: seq<T>, f: seq<Option<nat>>, g: seq<Option<nat>>)
    requires IsAlignment(a, b, f, g)
    ensures |f| < |a| ==> IsAlignment(a, b, f + [None], g)
    ensures |g| < |b| ==> IsAlignment(a, b, f, g + [None])
  {
    AppendMaps(f, None);
    AppendMaps(g, None);
  }

  /** How many of the first n indices a partial map is defined on. */
  function Count(f: seq<Option<nat>>, n: nat): (c: nat)
    requires n <= |f|
    ensures c <= n
  {
    if n == 0 then 0 else Count(f, n - 1) + if f[n - 1].Some? then 1 else 0
  }

  function Matched(f: seq<Option<nat>>): nat
  {
    Count(f, |f|)
  }

  lemma {:induction false} CountOfPrefix(f: seq<Option<nat>>, g: seq<Option<nat>>, n: nat)
    requires n <= |f| && n <= |g|
    requires forall k {:trigger f[k]} :: 0 <= k < n ==> f[k] == g[k]
    ensures Count(f, n) == Count(g, n)
  {
    if n > 0 {
      CountOfPrefix(f, g, n - 1);
    }
  }

  lemma {:induction false} MatchedAppend(f: seq<Option<nat>>, x: Option<nat>)
    ensures Matched(f + [x]) == Matched(f) + if x.Some? then 1 else 0
  {
    CountOfPrefix(f + [x], f, |f|);
  }

  /** The pairs (i, f(i)) for the first n indices, in order. */
  function Pairs(f: seq<Option<nat>>, n: nat): seq<(nat, nat)>
    requires n <= |f|
  {
    if n == 0 then []
    else Pairs(f, n - 1) + if f[n - 1].Some? then [(n - 1, f[n - 1].value)] else []
  }

  lemma {:induction false} PairsOfMap(f: seq<Option<nat>>, n: nat)
    requires n <= |f|
    ensures |Pairs(f, n)| == Count(f, n)
    ensures forall k {:trigger Pairs(f, n)[k]} :: 0 <= k < |Pairs(f, n)| ==>
              Pairs(f, n)[k].0 < n && Maps(f, Pairs(f, n)[k].0, Pairs(f, n)[k].1)
    ensures forall k, l {:trigger Pairs(f, n)[k], Pairs(f, n)[l]} :: 0 <= k < l < |Pairs(f, n)| ==>
              Pairs(f, n)[k].0 < Pairs(f, n)[l].0
  {
    if n > 0 {
      PairsOfMap(f, n - 1);
    }
  }

  /** An alignment is a matching written as maps, so none matches more than a longest common subsequence. */
  lemma {:induction false} AlignmentIsMatching<T>(a: seq<T>, b: seq<T>, f: seq<Option<nat>>, g: seq<Option<nat>>)
    requires IsAlignment(a, b, f, g)
    ensures IsMatching(a, b, |f|, |g|, Pairs(f, |f|))
    ensures Matched(f) <= Length(a, b, 0, |f|, |g|)
  {
    PairsOfMap(f, |f|);
    NoMatchingIsLonger(a, b, |f|, |g|, Pairs(f, |f|));
  }

  // ----- The alignment the backtrack reads off the table -----

  predicate LastEqual<T(==)>(a: seq<T>, b: seq<T>, h: nat, i: nat, j: nat)
    requires InRange(a, b, h, i, j)
  {
    i > 0 && j > 0 && a[h + i - 1] == b[h + j - 1]
  }

  /** With the last elements different, the backtrack drops the new side's on a tie. */
  predicate DropsNew<T(==)>(a: seq<T>, b: seq<T>, h: nat, i: nat, j: nat)
    requires InRange(a, b, h, i, j)
  {
    j > 0 && (i == 0 || Length(a, b, h, i, j - 1) >= Length(a, b, h, i - 1, j))
  }

  function Forward<T(==)>(a: seq<T>, b: seq<T>, h: nat, i: nat, j: nat): (f: seq<Option<nat>>)
    requires InRange(a, b, h, i, j)
    ensures |f| == h + i
    decreases i + j
  {
    if LastEqual(a, b, h, i, j) then Forward(a, b, h, i - 1, j - 1) + [Some(h + j - 1)]
    else if DropsNew(a, b, h, i, j) then Forward(a, b, h, i, j - 1)
    else if i > 0 then Forward(a, b, h, i - 1, j) + [None]
    else Identity(h)
  }

  function Backward<T(==)>(a: seq<T>, b: seq<T>, h: nat, i: nat, j: nat): (g: seq<Option<nat>>)
    requires InRange(a, b, h, i, j)
    ensures |g| == h + j
    decreases i + j
  {
    if LastEqual(a, b, h, i, j) then Backward(a, b, h, i - 1, j - 1) + [Some(h + i - 1)]
    else if DropsNew(a, b, h, i, j) then Backward(a, b, h, i, j - 1) + [None]
    else if i > 0 then Backward(a, b, h, i - 1, j)
    else Identity(h)
  }

  function Identity(n: nat): (f: seq<Option<nat>>)
    ensures |f| == n
    ensures forall i {:trigger f[i]} :: 0 <= i < n ==> f[i] == Some(i)
  {
    seq(n, i requires 0 <= i < n => Some(i))
  }

  lemma {:induction false} IdentityMatches(n: nat)
    ensures Matched(Identity(n)) == n
  {
    if n > 0 {
      IdentityMatches(n - 1);
      CountOfPrefix(Identity(n), Identity(n - 1), n - 1);
    }
  }

  predicate SameHead<T(==)>(a: seq<T>, b: seq<T>, h: nat)
    requires h <= |a| && h <= |b|
  {
    forall k {:trigger a[k]} :: 0 <= k < h ==> a[k] == b[k]
  }

  /** The backtrack from (i, j) yields an alignment of the two prefixes. */
  lemma {:induction false} BacktrackAligns<T>(a: seq<T>, b: seq<T>, h: nat, i: nat, j: nat)
    requires InRange(a, b, h, i, j) && SameHead(a, b, h)
    ensures IsAlignment(a, b, Forward(a, b, h, i, j), Backward(a, b, h, i, j))
    decreases i + j
  {
    if LastEqual(a, b, h, i, j) {
      var f, g := Forward(a, b, h, i - 1, j - 1), Backward(a, b, h, i - 1, j - 1);
      BacktrackAligns(a, b, h, i - 1, j - 1);
      assert |f| == h + i - 1 && |g| == h + j - 1;
      MatchExtends(a, b, f, g);
    } else if DropsNew(a, b, h, i, j) {
      BacktrackAligns(a, b, h, i, j - 1);
      DropExtends(a, b, Forward(a, b, h, i, j - 1), Backward(a, b, h, i, j - 1));
    } else if i > 0 {
      BacktrackAligns(a, b, h, i - 1, j);
      DropExtends(a, b, Forward(a, b, h, i - 1, j), Backward(a, b, h, i - 1, j));
    }
  }

  /** It matches all of the head and, after it, exactly as many elements as the table cell (i, j) says. */
  lemma {:induction false} BacktrackMatchesCell<T>(a: seq<T>, b: seq<T>, h: nat, i: nat, j: nat)
    requires InRange(a, b, h, i, j)
    ensures Matched(Forward(a, b, h, i, j)) == h + Length(a, b, h, i, j)
    decreases i + j
  {
    if LastEqual(a, b, h, i, j) {
      BacktrackMatchesCell(a, b, h, i - 1, j - 1);
      MatchedAppend(Forward(a, b, h, i - 1, j - 1), Some(h + j - 1));
    } else if DropsNew(a, b, h, i, j) {
      BacktrackMatchesCell(a, b, h, i, j - 1);
    } else if i > 0 {
      BacktrackMatchesCell(a, b, h, i - 1, j);
      MatchedAppend(Forward(a, b, h, i - 1, j), None);
    } else {
      IdentityMatches(h);
    }
  }

  // ----- Trimming -----

  /** The first index from h on at which a and b differ or one of them ends. */
  function HeadFrom<T(==)>(a: seq<T>, b: seq<T>, h: nat): (r: nat)
    requires h <= |a| && h <= |b|
    ensures h <= r <= |a| && r <= |b|
    ensures SameHead(a, b, h) ==> SameHead(a, b, r)
    ensures r < |a| && r < |b| ==> a[r] != b[r]
    decreases |a| - h
  {
    if h < |a| && h < |b| && a[h] == b[h] then HeadFrom(a, b, h + 1) else h
  }

  predicate SameTail<T(==)>(a: seq<T>, b: seq<T>, t: nat)
    requires t <= |a| && t <= |b|
  {
    forall i {:trigger a[i]} :: |a| - t <= i < |a| ==> a[i] == b[i - |a| + |b|]
  }

  /** How many elements, t at least, agree at the end without reaching into the first h. */
  function TailFrom<T(==)>(a: seq<T>, b: seq<T>, h: nat, t: nat): (r: nat)
    requires h + t <= |a| && h + t <= |b|
    ensures t <= r && h + r <= |a| && h + r <= |b|
    ensures SameTail(a, b, t) ==> SameTail(a, b, r)
    ensures h + r < |a| && h + r < |b| ==> a[|a| - 1 - r] != b[|b| - 1 - r]
    decreases |a| - t
  {
    if h + t < |a| && h + t < |b| && a[|a| - 1 - t] == b[|b| - 1 - t] then TailFrom(a, b, h, t + 1) else t
  }

  function CommonHead<T(==)>(a: seq<T>, b: seq<T>): (h: nat)
    ensures h <= |a| && h <= |b| && SameHead(a, b, h)
  {
    HeadFrom(a, b, 0)
  }

  /** How many elements are trimmed at the end: the common tail of what the head trim leaves. */
  function CommonTail<T(==)>(a: seq<T>, b: seq<T>): (t: nat)
    ensures CommonHead(a, b) + t <= |a| && CommonHead(a, b) + t <= |b|
    ensures SameTail(a, b, t)
  {
    TailFrom(a, b, CommonHead(a, b), 0)
  }

  /** One more common element in front adds exactly one. */
  lemma {:induction false} OneHeadIsLossless<T>(a: seq<T>, b: seq<T>, h: nat, g: nat, i: nat, j: nat, m: nat, n: nat)
    requires g == h + 1 && m == i + 1 && n == j + 1 && InRange(a, b, h, m, n) && a[h] == b[h]
    ensures Length(a, b, h, m, n) == 1 + Length(a, b, g, i, j)
    decreases i + j
  {
    if i == 0 {
      OnlyOldHead(a, b, h, n);
    } else if j == 0 {
      OnlyNewHead(a, b, h, m);
    } else {
      OneHeadIsLossless(a, b, h, g, i - 1, j - 1, i, j);
      OneHeadIsLossless(a, b, h, g, i - 1, j, i, n);
      OneHeadIsLossless(a, b, h, g, i, j - 1, m, j);
      HeadStep(a, b, h, g, i, j, m, n);
    }
  }

  lemma {:induction false} HeadStep<T>(a: seq<T>, b: seq<T>, h: nat, g: nat, i: nat, j: nat, m: nat, n: nat)
    requires g == h + 1 && m == i + 1 && n == j + 1 && InRange(a, b, h, m, n) && i > 0 && j > 0
    requires Length(a, b, h, i, j) == 1 + Length(a, b, g, i - 1, j - 1)
    requires Length(a, b, h, i, n) == 1 + Length(a, b, g, i - 1, j)
    requires Length(a, b, h, m, j) == 1 + Length(a, b, g, i, j - 1)
    ensures Length(a, b, h, m, n) == 1 + Length(a, b, g, i, j)
  {
    assert a[h + m - 1] == a[g + i - 1] && b[h + n - 1] == b[g + j - 1];
  }

  lemma {:induction false} OnlyOldHead<T>(a: seq<T>, b: seq<T>, h: nat, n: nat)
    requires n > 0 && InRange(a, b, h, 1, n) && a[h] == b[h]
    ensures Length(a, b, h, 1, n) == 1
  {
    if n > 1 {
      OnlyOldHead(a, b, h, n - 1);
    }
  }

  lemma {:induction false} OnlyNewHead<T>(a: seq<T>, b: seq<T>, h: nat, m: nat)
    requires m > 0 && InRange(a, b, h, m, 1) && a[h] == b[h]
    ensures Length(a, b, h, m, 1) == 1
  {
    if m > 1 {
      OnlyNewHead(a, b, h, m - 1);
    }
  }

  lemma {:induction false} HeadIsLossless<T>(a: seq<T>, b: seq<T>, h: nat, i: nat, j: nat, m: nat, n: nat)
    requires InRange(a, b, h, i, j) && SameHead(a, b, h) && m == h + i && n == h + j
    ensures Length(a, b, 0, m, n) == h + Length(a, b, h, i, j)
    decreases h
  {
    if h > 0 {
      HeadIsLossless(a, b, h - 1, i + 1, j + 1, m, n);
      OneHeadIsLossless(a, b, h - 1, h, i, j, i + 1, j + 1);
    }
  }

  /** k common elements after the prefixes (m, n) add exactly k; (i, j) is where they end. */
  lemma {:induction false} TailIsLossless<T>(a: seq<T>, b: seq<T>, h: nat, m: nat, n: nat, k: nat, i: nat, j: nat)
    requires InRange(a, b, h, i, j) && i == m + k && j == n + k
    requires forall x {:trigger a[x]} :: h + m <= x < h + i ==> a[x] == b[x - m + n]
    ensures Length(a, b, h, i, j) == Length(a, b, h, m, n) + k
    decreases k
  {
    if k > 0 {
      assert a[h + i - 1] == b[h + j - 1];
      TailIsLossless(a, b, h, m, n, k - 1, i - 1, j - 1);
    }
  }

  lemma {:induction false} EndsAreLossless<T>(a: seq<T>, b: seq<T>, h: nat, t: nat, i: nat, j: nat)
    requires |a| == h + i + t && |b| == h + j + t && SameHead(a, b, h) && SameTail(a, b, t)
    ensures WholeLength(a, b) == h + Length(a, b, h, i, j) + t
  {
    var m, n := i + t, j + t;
    assert forall x {:trigger a[x]} :: h + i <= x < h + m ==> a[x] == b[x - i + j];
    TailIsLossless(a, b, h, i, j, t, m, n);
    HeadIsLossless(a, b, h, m, n, |a|, |b|);
  }

  /** Trimming loses nothing: the two ends count in full, and only the middles are left to align. */
  lemma {:induction false} TrimIsLossless<T>(a: seq<T>, b: seq<T>)
    ensures var h, t := CommonHead(a, b), CommonTail(a, b);
            WholeLength(a, b) == h + Length(a, b, h, |a| - h - t, |b| - h - t) + t
  {
    var h, t := CommonHead(a, b), CommonTail(a, b);
    EndsAreLossless(a, b, h, t, |a| - h - t, |b| - h - t);
  }

  // ----- The whole diff: head by identity, middle by backtracking, tail by the difference in length -----

  /** f followed by t more entries that count up from start. */
  function WithTail(f: seq<Option<nat>>, start: nat, t: nat): (w: seq<Option<nat>>)
    ensures |w| == |f| + t
    ensures forall i {:trigger w[i]} :: 0 <= i < |w| ==> w[i] == if i < |f| then f[i] else Some(start + i - |f|)
  {
    if t == 0 then f else WithTail(f, start, t - 1) + [Some(start + t - 1)]
  }

  function DiffForward<T(==)>(a: seq<T>, b: seq<T>): (f: seq<Option<nat>>)
    ensures |f| == |a|
  {
    var h, t := CommonHead(a, b), CommonTail(a, b);
    WithTail(Forward(a, b, h, |a| - h - t, |b| - h - t), |b| - t, t)
  }

  function DiffBackward<T(==)>(a: seq<T>, b: seq<T>): (g: seq<Option<nat>>)
    ensures |g| == |b|
  {
    var h, t := CommonHead(a, b), CommonTail(a, b);
    WithTail(Backward(a, b, h, |a| - h - t, |b| - h - t), |a| - t, t)
  }

  lemma {:induction false} TailAligns<T>(a: seq<T>, b: seq<T>, f: seq<Option<nat>>, g: seq<Option<nat>>,
                                         m: nat, n: nat, k: nat)
    requires IsAlignment(a, b, f, g) && |f| == m && |g| == n
    requires m + k <= |a| && n + k <= |b|
    requires forall x {:trigger a[x]} :: m <= x < m + k ==> a[x] == b[x - m + n]
    ensures IsAlignment(a, b, WithTail(f, n, k), WithTail(g, m, k))
  {
    if k > 0 {
      TailAligns(a, b, f, g, m, n, k - 1);
      assert a[m + k - 1] == b[n + k - 1];
      MatchExtends(a, b, WithTail(f, n, k - 1), WithTail(g, m, k - 1));
    }
  }

  lemma {:induction false} TailMatches(f: seq<Option<nat>>, start: nat, k: nat)
    ensures Matched(WithTail(f, start, k)) == Matched(f) + k
  {
    if k > 0 {
      TailMatches(f, start, k - 1);
      MatchedAppend(WithTail(f, start, k - 1), Some(start + k - 1));
    }
  }

  lemma {:induction false} EndAligns<T>(a: seq<T>, b: seq<T>, f: seq<Option<nat>>, g: seq<Option<nat>>, t: nat)
    requires t <= |a| && t <= |b| && SameTail(a, b, t)
    requires |f| == |a| - t && |g| == |b| - t && IsAlignment(a, b, f, g)
    ensures IsAlignment(a, b, WithTail(f, |b| - t, t), WithTail(g, |a| - t, t))
  {
    TailAligns(a, b, f, g, |a| - t, |b| - t, t);
  }

  /** The diff is an alignment of the whole of a and b. */
  lemma {:induction false} DiffAligns<T>(a: seq<T>, b: seq<T>)
    ensures IsAlignment(a, b, DiffForward(a, b), DiffBackward(a, b))
  {
    var h, t := CommonHead(a, b), CommonTail(a, b);
    var i, j := |a| - h - t, |b| - h - t;
    BacktrackAligns(a, b, h, i, j);
    EndAligns(a, b, Forward(a, b, h, i, j), Backward(a, b, h, i, j), t);
  }

  /** It matches as many elements as a longest common subsequence of the whole of a and b has. */
  lemma {:induction false} DiffMatchesLcs<T>(a: seq<T>, b: seq<T>)
    ensures Matched(DiffForward(a, b)) == WholeLength(a, b)
  {
    var h, t := CommonHead(a, b), CommonTail(a, b);
    var f := Forward(a, b, h, |a| - h - t, |b| - h - t);
    BacktrackMatchesCell(a, b, h, |a| - h - t, |b| - h - t);
    TailMatches(f, |b| - t, t);
    TrimIsLossless(a, b);
  }

  /** No order-preserving matching of the whole of a and b is larger than the diff's. */
  lemma {:induction false} DiffIsOptimal<T>(a: seq<T>, b: seq<T>, ps: seq<(nat, nat)>)
    requires IsMatching(a, b, |a|, |b|, ps)
    ensures |ps| <= Matched(DiffForward(a, b))
  {
    DiffMatchesLcs(a, b);
    NoMatchingIsLonger(a, b, |a|, |b|, ps);
  }

  /** Two equal sequences are aligned by the identity. */
  lemma {:induction false} DiffOfEqual<T>(a: seq<T>)
    ensures DiffForward(a, a) == Identity(|a|)
    ensures DiffBackward(a, a) == Identity(|a|)
  {
    assert CommonHead(a, a) == |a| && CommonTail(a, a) == 0;
  }
}
