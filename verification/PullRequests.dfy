/**
 The remembered pull requests of a task (crates/ajax-core/src/diff_review.rs): merging an
 observed list into the stored one, and choosing the pull request to show first.
 */
module PullRequests {
  import opened Options
  import opened Sequences

  datatype PullRequestState = Open | Merged | Closed

  datatype PullRequestRef = PullRequestRef(
    number: nat, title: string, url: string, state: PullRequestState, headRef: string, headSha: Option<string>)

  /** The comparator of the merge: open requests first, then higher numbers first. */
  predicate Before(left: PullRequestRef, right: PullRequestRef) {
    if left.state.Open? != right.state.Open? then left.state.Open? else left.number > right.number
  }

  ghost predicate Sorted(prs: seq<PullRequestRef>) {
    forall i, j :: 0 <= i < j < |prs| ==> Before(prs[i], prs[j])
  }

  ghost predicate DistinctNumbers(prs: seq<PullRequestRef>) {
    forall i, j :: 0 <= i < j < |prs| ==> prs[i].number != prs[j].number
  }

  ghost predicate Canonical(prs: seq<PullRequestRef>) {
    Sorted(prs) && DistinctNumbers(prs)
  }

  /** Each number with the last request of prs that carries it. */
  function ByNumber(prs: seq<PullRequestRef>): (m: map<nat, PullRequestRef>)
    ensures forall n :: n in m ==> m[n].number == n && m[n] in prs
    ensures forall p :: p in prs ==> p.number in m
  {
    if prs == [] then map[]
    else ByNumber(prs[..|prs| - 1])[prs[|prs| - 1].number := prs[|prs| - 1]]
  }

  function Insert(pr: PullRequestRef, sorted: seq<PullRequestRef>): seq<PullRequestRef> {
    if sorted == [] || Before(pr, sorted[0]) then [pr] + sorted
    else [sorted[0]] + Insert(pr, sorted[1..])
  }

  /** Sorting by the comparator. */
  function SortedByOrder(prs: seq<PullRequestRef>): seq<PullRequestRef> {
    if prs == [] then [] else Insert(prs[0], SortedByOrder(prs[1..]))
  }

  lemma {:induction false} InsertKeeps(pr: PullRequestRef, s: seq<PullRequestRef>)
    requires Canonical(s) && forall p :: p in s ==> p.number != pr.number
    ensures Canonical(Insert(pr, s))
    ensures forall p :: p in Insert(pr, s) <==> p == pr || p in s
  {
    if s != [] && !Before(pr, s[0]) {
      InsertKeeps(pr, s[1..]);
      assert forall p :: p in s[1..] ==> Before(s[0], p) && p.number != s[0].number;
      assert forall p :: p in s <==> p == s[0] || p in s[1..];
    }
  }

  lemma {:induction false} SortKeeps(prs: seq<PullRequestRef>)
    requires DistinctNumbers(prs)
    ensures Canonical(SortedByOrder(prs))
    ensures forall p :: p in SortedByOrder(prs) <==> p in prs
  {
    if prs != [] {
      SortKeeps(prs[1..]);
      InsertKeeps(prs[0], SortedByOrder(prs[1..]));
    }
  }

  /** Every entry of m is filed under its own number. */
  ghost predicate Keyed(m: map<nat, PullRequestRef>) {
    forall n :: n in m ==> m[n].number == n
  }

  /** prs lists exactly the requests of m, in canonical order. */
  ghost predicate Lists(prs: seq<PullRequestRef>, m: map<nat, PullRequestRef>) {
    && Canonical(prs)
    && forall p :: p in prs <==> p.number in m && m[p.number] == p
  }

  /**
   What a merged list has to be: in canonical order, holding for every number the live request
   if there is one and the stored request otherwise.
   */
  ghost predicate IsMerge(merged: seq<PullRequestRef>, stored: seq<PullRequestRef>, live: seq<PullRequestRef>) {
    Lists(merged, ByNumber(stored) + ByNumber(live))
  }

  lemma {:induction false} ByNumberNext(prs: seq<PullRequestRef>, i: nat)
    requires i < |prs|
    ensures ByNumber(prs[..i + 1]) == ByNumber(prs[..i])[prs[i].number := prs[i]]
  {
    assert prs[..i + 1][..i] == prs[..i];
  }

  lemma {:induction false} UnionIsAssociative<K, V>(x: map<K, V>, y: map<K, V>, z: map<K, V>)
    ensures (x + y) + z == x + (y + z)
  {
  }

  lemma {:induction false} UnionUpdate<K, V>(x: map<K, V>, y: map<K, V>, k: K, v: V)
    ensures (x + y)[k := v] == x + y[k := v]
  {
  }

  /** One of the two filling loops: later requests replace earlier ones of the same number. */
  method Fill(start: map<nat, PullRequestRef>, prs: seq<PullRequestRef>) returns (byNumber: map<nat, PullRequestRef>)
    ensures byNumber == start + ByNumber(prs)
  {
    byNumber := start;
    assert prs[..0] == [] && start + map[] == start;
    for i := 0 to |prs|
      invariant byNumber == start + ByNumber(prs[..i])
    {
      ByNumberNext(prs, i);
      UnionUpdate(start, ByNumber(prs[..i]), prs[i].number, prs[i]);
      byNumber := byNumber[prs[i].number := prs[i]];
    }
    assert prs[..|prs|] == prs;
  }

  method MergePullRequestLists(stored: seq<PullRequestRef>, live: seq<PullRequestRef>)
    returns (merged: seq<PullRequestRef>)
    ensures IsMerge(merged, stored, live)
  {
    var byNumber := Fill(map[], stored);
    byNumber := Fill(byNumber, live);
    assert byNumber == ByNumber(stored) + ByNumber(live);
    var values := ValuesInSomeOrder(byNumber);
    SortKeeps(values);
    merged := SortedByOrder(values);
  }

  /** The values of the hash map, in whatever order it yields them. */
  method ValuesInSomeOrder(byNumber: map<nat, PullRequestRef>) returns (values: seq<PullRequestRef>)
    requires Keyed(byNumber)
    ensures DistinctNumbers(values)
    ensures forall p :: p in values <==> p.number in byNumber && byNumber[p.number] == p
  {
    values := [];
    var rest := byNumber.Keys;
    while rest != {}
      invariant rest <= byNumber.Keys
      invariant DistinctNumbers(values)
      invariant forall p :: p in values <==> p.number in byNumber && p.number !in rest && p == byNumber[p.number]
    {
      var n :| n in rest;
      values := values + [byNumber[n]];
      rest := rest - {n};
    }
  }

  lemma {:induction false} DistinctByNumber(prs: seq<PullRequestRef>)
    requires DistinctNumbers(prs)
    ensures forall p :: p in prs <==> p.number in ByNumber(prs) && ByNumber(prs)[p.number] == p
  {
    if prs != [] {
      var init, last := prs[..|prs| - 1], prs[|prs| - 1];
      DistinctByNumber(init);
      assert forall p :: p in prs <==> p in init || p == last;
      assert forall p :: p in init ==> p.number != last.number;
    }
  }

  /** A merged list is exactly the right-biased map union of its inputs. */
  lemma {:induction false} MergeIsMapUnion(merged: seq<PullRequestRef>, stored: seq<PullRequestRef>, live: seq<PullRequestRef>)
    requires IsMerge(merged, stored, live)
    ensures ByNumber(merged) == ByNumber(stored) + ByNumber(live)
  {
    DistinctByNumber(merged);
    var union, got := ByNumber(stored) + ByNumber(live), ByNumber(merged);
    forall n | n in union
      ensures n in got && got[n] == union[n]
    {
      assert union[n] in merged;
    }
    forall n | n in got
      ensures n in union
    {
      assert got[n] in merged;
    }
  }

  lemma {:induction false} SortedHead(a: seq<PullRequestRef>, b: seq<PullRequestRef>)
    requires Canonical(a) && Canonical(b)
    requires forall p :: p in a <==> p in b
    requires a != [] && b != []
    ensures a[0] == b[0]
    ensures forall p :: p in a[1..] <==> p in b[1..]
  {
    assert a[0] in b && b[0] in a;
    assert forall i :: 0 < i < |a| ==> Before(a[0], a[i]);
    assert forall i :: 0 < i < |b| ==> Before(b[0], b[i]);
    assert forall p :: p in a[1..] <==> p in a && p != a[0];
    assert forall p :: p in b[1..] <==> p in b && p != b[0];
  }

  lemma {:induction false} CanonicalOrderIsUnique(a: seq<PullRequestRef>, b: seq<PullRequestRef>)
    requires Canonical(a) && Canonical(b)
    requires forall p :: p in a <==> p in b
    ensures a == b
  {
    assert a != [] ==> a[0] in b;
    assert b != [] ==> b[0] in a;
    if a != [] {
      SortedHead(a, b);
      CanonicalOrderIsUnique(a[1..], b[1..]);
      assert a == [a[0]] + a[1..] && b == [b[0]] + b[1..];
    }
  }

  lemma {:induction false} ListingIsUnique(a: seq<PullRequestRef>, b: seq<PullRequestRef>, m: map<nat, PullRequestRef>)
    requires Lists(a, m) && Lists(b, m)
    ensures a == b
  {
    CanonicalOrderIsUnique(a, b);
  }

  /** The order in which the hash map yields its values never shows: there is only one merged list. */
  lemma {:induction false} MergeIsDeterministic(
    m1: seq<PullRequestRef>, m2: seq<PullRequestRef>, stored: seq<PullRequestRef>, live: seq<PullRequestRef>)
    requires IsMerge(m1, stored, live) && IsMerge(m2, stored, live)
    ensures m1 == m2
  {
    ListingIsUnique(m1, m2, ByNumber(stored) + ByNumber(live));
  }

  /** Merging observation c after b is merging the merge of b and c. */
  lemma {:induction false} MergeIsAssociative(
    a: seq<PullRequestRef>, b: seq<PullRequestRef>, c: seq<PullRequestRef>,
    ab: seq<PullRequestRef>, abThenC: seq<PullRequestRef>, bc: seq<PullRequestRef>, aThenBc: seq<PullRequestRef>)
    requires IsMerge(ab, a, b) && IsMerge(abThenC, ab, c)
    requires IsMerge(bc, b, c) && IsMerge(aThenBc, a, bc)
    ensures abThenC == aThenBc
  {
    var x, y, z := ByNumber(a), ByNumber(b), ByNumber(c);
    MergeIsMapUnion(ab, a, b);
    MergeIsMapUnion(bc, b, c);
    UnionIsAssociative(x, y, z);
    ListingIsUnique(abThenC, aThenBc, x + (y + z));
  }

  /** Observing the same list again changes nothing. */
  lemma {:induction false} MergeIsIdempotent(
    a: seq<PullRequestRef>, b: seq<PullRequestRef>, once: seq<PullRequestRef>, twice: seq<PullRequestRef>)
    requires IsMerge(once, a, b) && IsMerge(twice, once, b)
    ensures twice == once
  {
    var x, y := ByNumber(a), ByNumber(b);
    MergeIsMapUnion(once, a, b);
    assert (x + y) + y == x + y;
    ListingIsUnique(once, twice, x + y);
  }

  /** Iterator::max_by_key on the number: the last of the requests with the greatest number. */
  function LastWithMaxNumber(prs: seq<PullRequestRef>): PullRequestRef
    requires prs != []
  {
    if |prs| == 1 then prs[0]
    else
      var best := LastWithMaxNumber(prs[..|prs| - 1]);
      var last := prs[|prs| - 1];
      if last.number >= best.number then last else best
  }

  function OpenOnes(prs: seq<PullRequestRef>): seq<PullRequestRef> {
    if prs == [] then []
    else OpenOnes(prs[..|prs| - 1]) + if prs[|prs| - 1].state.Open? then [prs[|prs| - 1]] else []
  }

  function SelectDefaultPr(prs: seq<PullRequestRef>): Option<PullRequestRef> {
    var open := OpenOnes(prs);
    if open != [] then Some(LastWithMaxNumber(open))
    else if prs != [] then Some(LastWithMaxNumber(prs))
    else None
  }

  lemma {:induction false} MaxIsMax(prs: seq<PullRequestRef>)
    requires prs != []
    ensures LastWithMaxNumber(prs) in prs
    ensures forall p :: p in prs ==> p.number <= LastWithMaxNumber(prs).number
  {
    if |prs| > 1 {
      MaxIsMax(prs[..|prs| - 1]);
      InitAndLast(prs);
    }
  }

  lemma {:induction false} OpenOnesAreOpen(prs: seq<PullRequestRef>)
    ensures forall p :: p in OpenOnes(prs) <==> p in prs && p.state.Open?
  {
    if prs != [] {
      OpenOnesAreOpen(prs[..|prs| - 1]);
      InitAndLast(prs);
    }
  }

  /** On any list the choice is an open request if there is one, with the greatest number among its kind. */
  lemma {:induction false} SelectDefaultMeaning(prs: seq<PullRequestRef>)
    ensures SelectDefaultPr(prs).None? <==> prs == []
    ensures prs != [] ==>
      var chosen := SelectDefaultPr(prs).value;
      && chosen in prs
      && (chosen.state.Open? <==> exists p :: p in prs && p.state.Open?)
      && forall p :: p in prs && (chosen.state.Open? ==> p.state.Open?) ==> p.number <= chosen.number
  {
    OpenOnesAreOpen(prs);
    if OpenOnes(prs) != [] {
      MaxIsMax(OpenOnes(prs));
    } else if prs != [] {
      MaxIsMax(prs);
    }
  }

  /** The default pull request of a merged list is its head. */
  lemma {:induction false} DefaultIsHead(merged: seq<PullRequestRef>)
    requires Canonical(merged) && merged != []
    ensures SelectDefaultPr(merged) == Some(merged[0])
  {
    SelectDefaultMeaning(merged);
    var chosen := SelectDefaultPr(merged).value;
    var i :| 0 <= i < |merged| && merged[i] == chosen;
    assert forall j :: 0 < j < |merged| ==> Before(merged[0], merged[j]);
    assert merged[0] in merged;
  }

  // What is merged, request by request.

  /** The request is the last of the list that carries its number. */
  ghost predicate IsLatest(prs: seq<PullRequestRef>, p: PullRequestRef) {
    exists i :: 0 <= i < |prs| && prs[i] == p && forall j :: i < j < |prs| ==> prs[j].number != p.number
  }

  lemma {:induction false} LatestNext(prs: seq<PullRequestRef>, last: PullRequestRef, p: PullRequestRef)
    ensures IsLatest(prs + [last], p) <==> p == last || (IsLatest(prs, p) && last.number != p.number)
  {
    var all := prs + [last];
    assert all[|prs|] == last;
    if p != last && IsLatest(prs, p) && last.number != p.number {
      var i :| 0 <= i < |prs| && prs[i] == p && forall j :: i < j < |prs| ==> prs[j].number != p.number;
      assert all[i] == p;
    }
    if p != last && IsLatest(all, p) {
      var i :| 0 <= i < |all| && all[i] == p && forall j :: i < j < |all| ==> all[j].number != p.number;
      assert i < |prs| && prs[i] == p && forall j :: i < j < |prs| ==> prs[j] == all[j];
    }
  }

  lemma {:induction false} ByNumberIsLatest(prs: seq<PullRequestRef>, p: PullRequestRef)
    ensures p.number in ByNumber(prs) && ByNumber(prs)[p.number] == p <==> IsLatest(prs, p)
  {
    if prs != [] {
      var init, last := prs[..|prs| - 1], prs[|prs| - 1];
      InitAndLast(prs);
      ByNumberIsLatest(init, p);
      LatestNext(init, last, p);
    }
  }

  lemma {:induction false} NumbersListed(prs: seq<PullRequestRef>, n: nat)
    ensures n in ByNumber(prs) <==> exists p :: p in prs && p.number == n
  {
    if prs != [] {
      NumbersListed(prs[..|prs| - 1], n);
      InitAndLast(prs);
    }
  }

  /**
   A merged list holds the latest live request of each number, the latest stored one of each number that is
   not live, and nothing else, open ones first and then higher numbers first.
   */
  lemma {:induction false} MergedExactly(
    merged: seq<PullRequestRef>, stored: seq<PullRequestRef>, live: seq<PullRequestRef>, p: PullRequestRef)
    requires IsMerge(merged, stored, live)
    ensures p in merged
       <==> IsLatest(live, p) || (IsLatest(stored, p) && forall q :: q in live ==> q.number != p.number)
    ensures forall i, j :: 0 <= i < j < |merged| ==>
      if merged[i].state == Open && merged[j].state != Open then true
      else (merged[i].state == Open <==> merged[j].state == Open) && merged[i].number > merged[j].number
  {
    ByNumberIsLatest(stored, p);
    ByNumberIsLatest(live, p);
    NumbersListed(live, p.number);
    forall i, j | 0 <= i < j < |merged|
      ensures if merged[i].state == Open && merged[j].state != Open then true
        else (merged[i].state == Open <==> merged[j].state == Open) && merged[i].number > merged[j].number
    {
      assert Before(merged[i], merged[j]);
    }
  }

  // Which of several with the greatest number.

  /** Request i is of the kind looked for, open ones or any, and none later of that kind has as great a number. */
  ghost predicate IsLastGreatest(prs: seq<PullRequestRef>, open: bool, i: nat)
    requires i < |prs|
  {
    && (open ==> prs[i].state.Open?)
    && (forall j :: 0 <= j < |prs| && (open ==> prs[j].state.Open?) ==> prs[j].number <= prs[i].number)
    && (forall j :: i < j < |prs| && (open ==> prs[j].state.Open?) ==> prs[j].number < prs[i].number)
  }

  lemma {:induction false} LastGreatest(prs: seq<PullRequestRef>) returns (i: nat)
    requires prs != []
    ensures i < |prs| && prs[i] == LastWithMaxNumber(prs) && IsLastGreatest(prs, false, i)
  {
    i := |prs| - 1;
    if |prs| > 1 {
      var k := LastGreatest(prs[..|prs| - 1]);
      if prs[|prs| - 1].number < prs[k].number {
        i := k;
      }
    }
  }

  lemma {:induction false} OpenOnesNext(prs: seq<PullRequestRef>, last: PullRequestRef)
    ensures OpenOnes(prs + [last]) == OpenOnes(prs) + if last.state.Open? then [last] else []
  {
    assert (prs + [last])[..|prs|] == prs;
  }

  lemma {:induction false} MaxNext(prs: seq<PullRequestRef>, last: PullRequestRef)
    requires prs != []
    ensures LastWithMaxNumber(prs + [last])
         == if last.number >= LastWithMaxNumber(prs).number then last else LastWithMaxNumber(prs)
  {
    assert (prs + [last])[..|prs|] == prs;
  }

  lemma {:induction false} GreatestNext(prs: seq<PullRequestRef>, last: PullRequestRef, i: nat)
    requires i < |prs| && IsLastGreatest(prs, true, i)
    ensures IsLastGreatest(prs + [last], true, if last.state.Open? && last.number >= prs[i].number then |prs| else i)
  {
    var all := prs + [last];
    assert all[|prs|] == last && forall j :: 0 <= j < |prs| ==> all[j] == prs[j];
  }

  lemma {:induction false} FirstOpenIsGreatest(prs: seq<PullRequestRef>, last: PullRequestRef)
    requires OpenOnes(prs) == [] && last.state.Open?
    ensures IsLastGreatest(prs + [last], true, |prs|)
  {
    OpenOnesAreOpen(prs);
    var all := prs + [last];
    assert forall j :: 0 <= j < |prs| ==> all[j] == prs[j] && prs[j] in prs && prs[j] !in OpenOnes(prs);
  }

  lemma {:induction false} LastGreatestOpen(prs: seq<PullRequestRef>) returns (i: nat)
    requires OpenOnes(prs) != []
    ensures i < |prs| && prs[i] == LastWithMaxNumber(OpenOnes(prs)) && IsLastGreatest(prs, true, i)
  {
    var init, last := prs[..|prs| - 1], prs[|prs| - 1];
    InitAndLast(prs);
    OpenOnesNext(init, last);
    if OpenOnes(init) == [] {
      i := |prs| - 1;
      FirstOpenIsGreatest(init, last);
      assert [] + [last] == [last];
    } else {
      i := LastGreatestOpen(init);
      GreatestNext(init, last, i);
      if last.state.Open? {
        MaxNext(OpenOnes(init), last);
      } else {
        assert OpenOnes(init) + [] == OpenOnes(init);
      }
      i := if last.state.Open? && last.number >= init[i].number then |init| else i;
    }
  }

  /** Of several with the greatest number the last listed is chosen. */
  lemma {:induction false} SelectDefaultIsLast(prs: seq<PullRequestRef>) returns (i: nat)
    requires prs != []
    ensures i < |prs| && SelectDefaultPr(prs) == Some(prs[i])
    ensures IsLastGreatest(prs, exists p :: p in prs && p.state.Open?, i)
  {
    OpenOnesAreOpen(prs);
    if OpenOnes(prs) != [] {
      assert OpenOnes(prs)[0] in OpenOnes(prs);
      i := LastGreatestOpen(prs);
    } else {
      i := LastGreatest(prs);
    }
  }
}
