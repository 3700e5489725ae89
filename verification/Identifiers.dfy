// Extension identifiers in their lexicographic order, and the sorted walk over a map's keys.
module Identifiers {

  /** Lexicographic order of octet strings. */
  predicate Before(a: string, b: string) {
    b != "" && (a == "" || a[0] < b[0] || (a[0] == b[0] && Before(a[1..], b[1..])))
  }

  lemma {:induction false} BeforeIsStrict(a: string, b: string)
    ensures !(Before(a, b) && Before(b, a))
  {
    if a != "" && b != "" { BeforeIsStrict(a[1..], b[1..]); }
  }

  lemma {:induction false} BeforeIsTotal(a: string, b: string)
    ensures a == b || Before(a, b) || Before(b, a)
  {
    if a != "" && b != "" && a[0] == b[0] {
      BeforeIsTotal(a[1..], b[1..]);
      assert a == [a[0]] + a[1..] && b == [b[0]] + b[1..];
    }
  }

  lemma {:induction false} BeforeIsTransitive(a: string, b: string, c: string)
    requires Before(a, b) && Before(b, c)
    ensures Before(a, c)
  {
    if a != "" && a[0] == b[0] == c[0] { BeforeIsTransitive(a[1..], b[1..], c[1..]); }
  }

  predicate StrictlySorted(ids: seq<string>) {
    forall i, j :: 0 <= i < j < |ids| ==> Before(ids[i], ids[j])
  }

  predicate SameElements(ids: seq<string>, keys: set<string>) {
    (forall i :: 0 <= i < |ids| ==> ids[i] in keys) && (forall id :: id in keys ==> id in ids)
  }

  /** Sorted order leaves no freedom: the elements determine the sequence. */
  lemma {:induction false} SortedIsUnique(a: seq<string>, b: seq<string>, keys: set<string>)
    requires StrictlySorted(a) && StrictlySorted(b) && SameElements(a, keys) && SameElements(b, keys)
    ensures a == b
  {
    hide Before;
    if a != [] { assert a[0] in b; }
    if b != [] { assert b[0] in a; }
    if a != [] {
      BeforeIsStrict(a[0], b[0]);
      forall i | 0 < i < |a| ensures a[i] != a[0] { BeforeIsStrict(a[0], a[i]); }
      forall i | 0 < i < |b| ensures b[i] != b[0] { BeforeIsStrict(b[0], b[i]); }
      assert a[0] == b[0];
      SortedIsUnique(a[1..], b[1..], keys - {a[0]});
      assert a == [a[0]] + a[1..] && b == [b[0]] + b[1..];
    }
  }

  /** The first identifier of a nonempty set. */
  method Least(keys: set<string>) returns (least: string)
    requires keys != {}
    ensures least in keys && forall id :: id in keys && id != least ==> Before(least, id)
  {
    hide Before;
    least :| least in keys;
    var pending := keys - {least};
    while pending != {}
      invariant pending <= keys && least in keys
      invariant forall id :: id in keys && id != least && id !in pending ==> Before(least, id)
      decreases |pending|
    {
      var id :| id in pending;
      BeforeIsTotal(least, id);
      BeforeIsStrict(least, id);
      if Before(id, least) {
        forall other | other in keys && other != id && other !in pending && other != least ensures Before(id, other) {
          BeforeIsTransitive(id, least, other);
        }
        least := id;
      }
      pending := pending - {id};
    }
  }

  /** The keys of a map in increasing order. */
  method SortedKeys(keys: set<string>) returns (ids: seq<string>)
    ensures StrictlySorted(ids) && SameElements(ids, keys)
    ensures |ids| == |keys|
  {
    hide Before;
    ids := [];
    var pending := keys;
    while pending != {}
      invariant pending <= keys && StrictlySorted(ids) && |ids| + |pending| == |keys|
      invariant forall i :: 0 <= i < |ids| ==> ids[i] in keys && ids[i] !in pending
      invariant forall id :: id in keys ==> id in pending || id in ids
      invariant forall i, id :: 0 <= i < |ids| && id in pending ==> Before(ids[i], id)
      decreases |pending|
    {
      var least := Least(pending);
      ids := ids + [least];
      pending := pending - {least};
    }
  }
}
