/**
 The order in which a registry visits its tasks (crates/ajax-core/src/registry.rs:62): a BTreeMap gives
 its keys out in increasing order, and task ids compare as texts, character by character.
 */
module TaskOrder {

  predicate Precedes(a: string, b: string) {
    b != [] && (a == [] || a[0] < b[0] || (a[0] == b[0] && Precedes(a[1..], b[1..])))
  }

  lemma {:induction false} NeverPrecedesItself(a: string)
    ensures !Precedes(a, a)
  {
    if a != [] {
      NeverPrecedesItself(a[1..]);
    }
  }

  lemma {:induction false} OnePrecedes(a: string, b: string)
    requires a != b
    ensures Precedes(a, b) || Precedes(b, a)
  {
    if a != [] && b != [] && a[0] == b[0] {
      assert a == [a[0]] + a[1..] && b == [b[0]] + b[1..];
      OnePrecedes(a[1..], b[1..]);
    }
  }

  lemma {:induction false} PrecedesOn(a: string, b: string, c: string)
    requires Precedes(a, b) && Precedes(b, c)
    ensures Precedes(a, c)
  {
    if a != [] && a[0] == b[0] == c[0] {
      PrecedesOn(a[1..], b[1..], c[1..]);
    }
  }

  /** The texts agree up to some position, where the first ends or has the smaller character. */
  ghost predicate SplitsAt(a: string, b: string, n: nat) {
    n <= |a| && n < |b| && a[..n] == b[..n] && (n == |a| || a[n] < b[n])
  }

  lemma {:induction false} PrecedesMeaning(a: string, b: string)
    ensures Precedes(a, b) <==> exists n: nat :: SplitsAt(a, b, n)
  {
    if a != [] && b != [] && a[0] == b[0] {
      PrecedesMeaning(a[1..], b[1..]);
      SplitsLater(a, b);
    } else {
      if Precedes(a, b) {
        assert SplitsAt(a, b, 0);
      }
      if n: nat :| SplitsAt(a, b, n) {
        assert n > 0 ==> a[..n][0] == b[..n][0];
      }
    }
  }

  lemma {:induction false} SplitsLater(a: string, b: string)
    requires a != [] && b != [] && a[0] == b[0]
    ensures (exists n: nat :: SplitsAt(a, b, n)) <==> exists n: nat :: SplitsAt(a[1..], b[1..], n)
  {
    if n: nat :| SplitsAt(a, b, n) {
      assert n > 0 && a[..n][1..] == a[1..][..n - 1] && b[..n][1..] == b[1..][..n - 1];
      assert SplitsAt(a[1..], b[1..], n - 1);
    }
    if n: nat :| SplitsAt(a[1..], b[1..], n) {
      assert a[..n + 1] == [a[0]] + a[1..][..n] && b[..n + 1] == [b[0]] + b[1..][..n];
      assert SplitsAt(a, b, n + 1);
    }
  }

  ghost predicate IsFirst(id: string, ids: set<string>) {
    id in ids && forall other :: other in ids && other != id ==> Precedes(id, other)
  }

  method First(ids: set<string>) returns (id: string)
    requires ids != {}
    ensures IsFirst(id, ids)
  {
    id :| id in ids;
    var rest := ids - {id};
    while rest != {}
      invariant rest <= ids && id !in rest
      invariant IsFirst(id, ids - rest)
    {
      var other :| other in rest;
      OnePrecedes(id, other);
      FirstOfMore(id, ids - rest, other);
      rest := rest - {other};
      assert ids - rest == (ids - (rest + {other})) + {other};
      if Precedes(other, id) {
        id := other;
      }
    }
    assert ids - rest == ids;
  }

  lemma {:induction false} FirstOfMore(id: string, ids: set<string>, other: string)
    requires IsFirst(id, ids) && other !in ids
    ensures Precedes(id, other) ==> IsFirst(id, ids + {other})
    ensures Precedes(other, id) ==> IsFirst(other, ids + {other})
  {
    if Precedes(other, id) {
      forall x | x in ids && x != id
        ensures Precedes(other, x)
      {
        PrecedesOn(other, id, x);
      }
    }
  }

  ghost predicate Increasing(ids: seq<string>) {
    forall i, j :: 0 <= i < j < |ids| ==> Precedes(ids[i], ids[j])
  }

  lemma {:induction false} IncreasingIsDistinct(ids: seq<string>)
    requires Increasing(ids)
    ensures forall i, j :: 0 <= i < j < |ids| ==> ids[i] != ids[j]
  {
    forall i, j | 0 <= i < j < |ids|
      ensures ids[i] != ids[j]
    {
      NeverPrecedesItself(ids[i]);
    }
  }
}
