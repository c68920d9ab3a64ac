/** Offers as the quote engine returns them, and their ordering: highest eligible amount
    first. The sort is `Array.prototype.sort` with the comparator
    `b.eligibleAmount - a.eligibleAmount`; that sort is stable, so offers with equal amounts
    keep the order in which the policies produced them. */
module Ranking {

  datatype Probability = High | Medium

  datatype Offer = Offer(
    id: string,
    bankName: string,
    logoUrl: string,
    eligibleAmount: int,
    interestRate: real,
    processingFee: real,
    tenureRange: (int, int),
    approvalProbability: Probability,
    tags: seq<string>,
    isRecommended: bool)

  /** Non-increasing eligible amounts. */
  predicate SortedByAmount(s: seq<Offer>) {
    forall i, j :: 0 <= i < j < |s| ==> s[i].eligibleAmount >= s[j].eligibleAmount
  }

  /** The offers of `s` with amount `k`, in their order in `s`. Stability means this
      subsequence is the same before and after sorting. */
  function WithAmount(s: seq<Offer>, k: int): seq<Offer> {
    if |s| == 0 then []
    else (if s[0].eligibleAmount == k then [s[0]] else []) + WithAmount(s[1..], k)
  }

  /** Places `o` in front of the first offer it is not below, so that it stays ahead of
      offers with the same amount that followed it in the input. */
  function Insert(o: Offer, s: seq<Offer>): (r: seq<Offer>)
    ensures |r| == |s| + 1
    ensures r[0] == o || (|s| > 0 && r[0] == s[0])
  {
    if |s| == 0 then [o]
    else if o.eligibleAmount >= s[0].eligibleAmount then [o] + s
    else [s[0]] + Insert(o, s[1..])
  }

  /** Inserting into sorted offers keeps them sorted. */
  lemma {:induction false} InsertSorted(o: Offer, s: seq<Offer>)
    requires SortedByAmount(s)
    ensures SortedByAmount(Insert(o, s))
  {
    if |s| > 0 && o.eligibleAmount < s[0].eligibleAmount {
      assert SortedByAmount(s[1..]);
      InsertSorted(o, s[1..]);
      var rest := Insert(o, s[1..]);
      var r := Insert(o, s);
      assert r == [s[0]] + rest;
      forall i, j | 0 <= i < j < |r|
        ensures r[i].eligibleAmount >= r[j].eligibleAmount
      {
        assert r[j] == rest[j - 1];
        if i > 0 {
          assert r[i] == rest[i - 1];
        } else {
          assert rest[0] == o || rest[0] == s[1];
        }
      }
    }
  }

  /** Inserting adds exactly `o`. */
  lemma {:induction false} InsertPermutes(o: Offer, s: seq<Offer>)
    ensures multiset(Insert(o, s)) == multiset(s) + multiset{o}
  {
    if |s| > 0 && o.eligibleAmount < s[0].eligibleAmount {
      InsertPermutes(o, s[1..]);
      assert s == [s[0]] + s[1..];
    }
  }

  lemma MultisetCons(s: seq<Offer>)
    requires |s| > 0
    ensures multiset(s) == multiset(s[1..]) + multiset{s[0]}
  {
    assert s == [s[0]] + s[1..];
  }

  /** The ordering applied to the collected offers. */
  function SortByAmount(s: seq<Offer>): (r: seq<Offer>)
    ensures SortedByAmount(r)
    ensures multiset(r) == multiset(s)
    ensures |r| == |s|
  {
    if |s| == 0 then []
    else
      var rest := SortByAmount(s[1..]);
      InsertSorted(s[0], rest);
      InsertPermutes(s[0], rest);
      MultisetCons(s);
      Insert(s[0], rest)
  }

  lemma WithAmountCons(x: Offer, s: seq<Offer>, k: int)
    ensures WithAmount([x] + s, k) == (if x.eligibleAmount == k then [x] else []) + WithAmount(s, k)
  {
    assert ([x] + s)[1..] == s;
  }

  lemma {:induction false} InsertStable(o: Offer, s: seq<Offer>, k: int)
    ensures WithAmount(Insert(o, s), k) == (if o.eligibleAmount == k then [o] else []) + WithAmount(s, k)
  {
    if |s| == 0 {
      WithAmountCons(o, s, k);
    } else if o.eligibleAmount >= s[0].eligibleAmount {
      WithAmountCons(o, s, k);
    } else {
      var rest := Insert(o, s[1..]);
      assert Insert(o, s) == [s[0]] + rest;
      InsertStable(o, s[1..], k);
      StableStep(s[0], o, rest, s[1..], k);
      assert [s[0]] + s[1..] == s;
    }
  }

  /** Putting a higher offer `x` in front of both sides keeps `o`'s place among the offers
      of amount `k`. */
  lemma StableStep(x: Offer, o: Offer, rest: seq<Offer>, tail: seq<Offer>, k: int)
    requires x.eligibleAmount > o.eligibleAmount
    requires WithAmount(rest, k) == (if o.eligibleAmount == k then [o] else []) + WithAmount(tail, k)
    ensures WithAmount([x] + rest, k) == (if o.eligibleAmount == k then [o] else []) + WithAmount([x] + tail, k)
  {
    WithAmountCons(x, rest, k);
    WithAmountCons(x, tail, k);
    if x.eligibleAmount == k {
      assert WithAmount(rest, k) == WithAmount(tail, k);
      assert WithAmount([x] + rest, k) == [x] + WithAmount(tail, k);
    } else {
      assert WithAmount([x] + rest, k) == WithAmount(rest, k);
      assert WithAmount([x] + tail, k) == WithAmount(tail, k);
    }
  }

  /** The sort is stable: for every amount, the offers with that amount appear in the
      same order as in the input. */
  lemma {:induction false} SortStable(s: seq<Offer>, k: int)
    ensures WithAmount(SortByAmount(s), k) == WithAmount(s, k)
  {
    if |s| > 0 {
      SortStable(s[1..], k);
      InsertStable(s[0], SortByAmount(s[1..]), k);
    }
  }

  /** Offers already in order are left as they are. */
  lemma {:induction false} SortKeepsSorted(s: seq<Offer>)
    requires SortedByAmount(s)
    ensures SortByAmount(s) == s
  {
    if |s| > 0 {
      assert SortedByAmount(s[1..]);
      SortKeepsSorted(s[1..]);
    }
  }

  /** Sorting twice is sorting once. */
  lemma SortIdempotent(s: seq<Offer>)
    ensures SortByAmount(SortByAmount(s)) == SortByAmount(s)
  {
    SortKeepsSorted(SortByAmount(s));
  }
}
