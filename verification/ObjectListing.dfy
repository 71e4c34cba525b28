/** Listing a bucket by key prefix: a range of the ordered map, cut where the prefix ends. */
module ObjectListing {
  import opened Common
  import opened Strings

  /** The ordered map of a bucket, in key order. */
  type Objects<M> = seq<(string, M)>

  ghost predicate Ordered<M>(objects: Objects<M>) {
    forall i, j | 0 <= i < j < |objects| :: StringLess(objects[i].0, objects[j].0)
  }

  /** Every object whose key starts with the prefix. */
  function Prefixed<M>(objects: Objects<M>, prefix: string): Objects<M> {
    if objects == [] then []
    else
      var last := objects[|objects| - 1];
      Prefixed(objects[..|objects| - 1], prefix) + if prefix <= last.0 then [last] else []
  }

  /** A key with the prefix is not below it. */
  lemma {:induction false} PrefixNotBelow(prefix: string, key: string)
    requires prefix <= key
    ensures !StringLess(key, prefix)
  {
    if prefix != [] {
      PrefixNotBelow(prefix[1..], key[1..]);
    }
  }

  /** Past the keys that have the prefix, no key has it again. */
  lemma {:induction false} PrefixConvex(prefix: string, a: string, b: string)
    requires !StringLess(a, prefix) && StringLess(a, b) && prefix <= b
    ensures prefix <= a
  {
    if prefix != [] {
      assert a != [] && a[0] == prefix[0];
      assert b == [b[0]] + b[1..] && a == [a[0]] + a[1..];
      PrefixConvex(prefix[1..], a[1..], b[1..]);
    }
  }

  lemma {:induction false} PrefixedNone<M>(objects: Objects<M>, prefix: string)
    requires forall i | 0 <= i < |objects| :: !(prefix <= objects[i].0)
    ensures Prefixed(objects, prefix) == []
  {
    if objects != [] {
      PrefixedNone(objects[..|objects| - 1], prefix);
    }
  }

  lemma {:induction false} PrefixedAppend<M>(a: Objects<M>, b: Objects<M>, prefix: string)
    ensures Prefixed(a + b, prefix) == Prefixed(a, prefix) + Prefixed(b, prefix)
  {
    if b == [] {
      assert a + b == a;
    } else {
      assert (a + b)[..|a + b| - 1] == a + b[..|b| - 1];
      PrefixedAppend(a, b[..|b| - 1], prefix);
    }
  }

  /** The objects from `i` on hold the prefix up to `j` and not after. */
  lemma PrefixedIs<M>(objects: Objects<M>, prefix: string, i: nat, j: nat)
    requires Ordered(objects) && i <= j <= |objects|
    requires forall k | 0 <= k < i :: StringLess(objects[k].0, prefix)
    requires forall k | i <= k < |objects| :: !StringLess(objects[k].0, prefix)
    requires forall k | i <= k < j :: prefix <= objects[k].0
    requires j < |objects| ==> !(prefix <= objects[j].0)
    ensures Prefixed(objects, prefix) == objects[i..j]
  {
    hide StringLess, Prefixed;
    forall k | 0 <= k < i ensures !(prefix <= objects[k].0) {
      if prefix <= objects[k].0 {
        PrefixNotBelow(prefix, objects[k].0);
      }
    }
    NoneAfter(objects, prefix, i, j);
    PrefixedNone(objects[..i], prefix);
    PrefixedNone(objects[j..], prefix);
    AllPrefixed(objects[i..j], prefix);
    hide *;
    ThreeParts(objects, i, j);
    PrefixedAppend(objects[..i] + objects[i..j], objects[j..], prefix);
    PrefixedAppend(objects[..i], objects[i..j], prefix);
  }

  lemma NoneAfter<M>(objects: Objects<M>, prefix: string, i: nat, j: nat)
    requires Ordered(objects) && i <= j <= |objects|
    requires forall k | i <= k < |objects| :: !StringLess(objects[k].0, prefix)
    requires j < |objects| ==> !(prefix <= objects[j].0)
    ensures forall k | j <= k < |objects| :: !(prefix <= objects[k].0)
  {
    hide StringLess;
    forall k | j <= k < |objects| ensures !(prefix <= objects[k].0) {
      if j < k && prefix <= objects[k].0 {
        PrefixConvex(prefix, objects[j].0, objects[k].0);
      }
    }
  }

  lemma ThreeParts<T>(s: seq<T>, i: nat, j: nat)
    requires i <= j <= |s|
    ensures s == s[..i] + s[i..j] + s[j..]
  {
  }

  lemma {:induction false} AllPrefixed<M>(objects: Objects<M>, prefix: string)
    requires forall i | 0 <= i < |objects| :: prefix <= objects[i].0
    ensures Prefixed(objects, prefix) == objects
  {
    if objects != [] {
      AllPrefixed(objects[..|objects| - 1], prefix);
    }
  }

  lemma {:induction false} NotBelowUpward(prefix: string, a: string, b: string)
    requires !StringLess(a, prefix) && StringLess(a, b)
    ensures !StringLess(b, prefix)
  {
    if StringLess(b, prefix) {
      StringTransitive(a, b, prefix);
    }
  }

  /** The first `limit` objects under the prefix, in key order, or the whole of them. */
  method List<M>(buckets: map<string, Objects<M>>, bucket: string, prefix: string, limit: Option<nat>)
    returns (r: Result<Objects<M>, string>)
    requires bucket in buckets ==> Ordered(buckets[bucket])
    ensures r.Err? <==> bucket !in buckets
    ensures r.Ok? ==> var all := Prefixed(buckets[bucket], prefix);
                      r.value == if limit.Some? && limit.value < |all| then all[..limit.value] else all
  {
    if bucket !in buckets {
      return Err(bucket);
    }
    var objects := buckets[bucket];
    var i := 0;
    while i < |objects| && StringLess(objects[i].0, prefix)
      invariant i <= |objects| && forall k | 0 <= k < i :: StringLess(objects[k].0, prefix)
    {
      i := i + 1;
    }
    var j := i;
    while j < |objects| && prefix <= objects[j].0 && (limit.None? || j - i < limit.value)
      invariant i <= j <= |objects| && forall k | i <= k < j :: prefix <= objects[k].0
      invariant limit.Some? ==> j - i <= limit.value
    {
      j := j + 1;
    }
    Listed(objects, prefix, i, j);
    r := Ok(objects[i..j]);
  }

  /** What was taken is a leading part of the answer, and all of it unless the next key qualifies. */
  lemma Listed<M>(objects: Objects<M>, prefix: string, i: nat, j: nat)
    requires Ordered(objects) && i <= j <= |objects|
    requires forall k | 0 <= k < i :: StringLess(objects[k].0, prefix)
    requires i < |objects| ==> !StringLess(objects[i].0, prefix)
    requires forall k | i <= k < j :: prefix <= objects[k].0
    ensures objects[i..j] <= Prefixed(objects, prefix)
    ensures j == |objects| || !(prefix <= objects[j].0) ==> Prefixed(objects, prefix) == objects[i..j]
    ensures j < |objects| && prefix <= objects[j].0 ==> |Prefixed(objects, prefix)| > j - i
  {
    forall k | i < k < |objects| ensures !StringLess(objects[k].0, prefix) {
      NotBelowUpward(prefix, objects[i].0, objects[k].0);
    }
    var e := RunEnd(objects, prefix, j);
    PrefixedIs(objects, prefix, i, e);
  }

  ghost function RunEnd<M>(objects: Objects<M>, prefix: string, j: nat): (e: nat)
    requires j <= |objects|
    ensures j <= e <= |objects| && (forall k | j <= k < e :: prefix <= objects[k].0)
    ensures e < |objects| ==> !(prefix <= objects[e].0)
    decreases |objects| - j
  {
    if j < |objects| && prefix <= objects[j].0 then RunEnd(objects, prefix, j + 1) else j
  }
}
