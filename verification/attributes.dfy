/** Attribute discovery for `extractAndPopulateAttributes` (script.js:147-173):
    the keys of the nodes' data objects, without the reserved ones, each once,
    in the order of first appearance. */
module Attributes {
  import opened JsValues

  /** Keys never offered in the colour and size dropdowns. */
  predicate Reserved(k: string) {
    k == "id" || k == "label" || k == "x" || k == "y"
  }

  /** All keys of all data objects, node after node, each in `Object.keys` order. */
  function AllKeys(ds: seq<JsObject>): seq<string> {
    if ds == [] then [] else AllKeys(ds[..|ds| - 1]) + ds[|ds| - 1].keys
  }

  /** `set.add(k)` on an insertion-ordered set, unless `k` is reserved. */
  function AddKey(acc: seq<string>, k: string): seq<string> {
    if Reserved(k) || k in acc then acc else acc + [k]
  }

  /** The key set built from the key stream `ks`. */
  function Discover(ks: seq<string>): seq<string> {
    if ks == [] then [] else AddKey(Discover(ks[..|ks| - 1]), ks[|ks| - 1])
  }

  /** The attribute keys offered for the nodes `ds`. */
  function DiscoveredKeys(ds: seq<JsObject>): seq<string> {
    Discover(AllKeys(ds))
  }

  /** The position of the first occurrence of `k` in `s`. */
  function FirstIndex(s: seq<string>, k: string): (i: nat)
    requires k in s
    ensures i < |s| && s[i] == k && k !in s[..i]
  {
    if s[|s| - 1] == k && k !in s[..|s| - 1] then |s| - 1
    else
      var i := FirstIndex(s[..|s| - 1], k);
      assert s[..i] == s[..|s| - 1][..i];
      i
  }

  /** Discovery keeps each non-reserved key of the stream exactly once and
      nothing else. */
  lemma {:induction false} DiscoverMembers(ks: seq<string>)
    ensures Distinct(Discover(ks))
    ensures forall k :: k in Discover(ks) <==> k in ks && !Reserved(k)
    decreases |ks|
  {
    if ks != [] {
      var init := ks[..|ks| - 1];
      DiscoverMembers(init);
      assert ks == init + [ks[|ks| - 1]];
    }
  }

  /** Discovered keys appear in the order of their first occurrence in the
      stream. */
  lemma {:induction false} DiscoverOrder(ks: seq<string>, i: nat, j: nat)
    requires i < j < |Discover(ks)|
    ensures Discover(ks)[i] in ks && Discover(ks)[j] in ks
    ensures FirstIndex(ks, Discover(ks)[i]) < FirstIndex(ks, Discover(ks)[j])
    decreases |ks|
  {
    var init := ks[..|ks| - 1];
    var last := ks[|ks| - 1];
    var r := Discover(ks);
    var r0 := Discover(init);
    DiscoverMembers(init);
    DiscoverMembers(ks);
    assert ks == init + [last];
    if j < |r0| {
      DiscoverOrder(init, i, j);
      FirstIndexPrefix(init, last, r[i]);
      FirstIndexPrefix(init, last, r[j]);
    } else {
      assert r == r0 + [last] && j == |r0|;
      assert last !in init;
      FirstIndexPrefix(init, last, r[i]);
      assert FirstIndex(ks, last) == |ks| - 1;
    }
  }

  lemma FirstIndexPrefix(init: seq<string>, last: string, k: string)
    requires k in init
    ensures FirstIndex(init + [last], k) == FirstIndex(init, k)
  {
    var s := init + [last];
    assert s[..|s| - 1] == init;
  }

  /** A key is in the stream iff some node's data has it. */
  lemma {:induction false} AllKeysMembers(ds: seq<JsObject>, k: string)
    ensures k in AllKeys(ds) <==> exists n :: 0 <= n < |ds| && k in ds[n].keys
    decreases |ds|
  {
    if ds != [] {
      var init := ds[..|ds| - 1];
      AllKeysMembers(init, k);
      if k in AllKeys(init) {
        var n :| 0 <= n < |init| && k in init[n].keys;
        assert ds[n] == init[n];
      }
      if exists n :: 0 <= n < |ds| && k in ds[n].keys {
        var n :| 0 <= n < |ds| && k in ds[n].keys;
        if n < |ds| - 1 {
          assert init[n] == ds[n];
        }
      }
    }
  }

  /** The discovered list holds every key of every node's data except `id`,
      `label`, `x` and `y`, and each only once. */
  lemma DiscoveredKeysSpec(ds: seq<JsObject>)
    ensures Distinct(DiscoveredKeys(ds))
    ensures forall k :: k in DiscoveredKeys(ds) <==>
              !Reserved(k) && exists n :: 0 <= n < |ds| && k in ds[n].keys
  {
    DiscoverMembers(AllKeys(ds));
    forall k ensures k in AllKeys(ds) <==> exists n :: 0 <= n < |ds| && k in ds[n].keys {
      AllKeysMembers(ds, k);
    }
  }

  lemma DiscoverSnoc(s: seq<string>, k: string)
    ensures Discover(s + [k]) == AddKey(Discover(s), k)
  {
    assert (s + [k])[..|s|] == s;
  }

  lemma DiscoverStep(seen: seq<string>, ks: seq<string>, j: nat)
    requires j < |ks|
    ensures Discover(seen + ks[..j + 1]) == AddKey(Discover(seen + ks[..j]), ks[j])
  {
    assert seen + ks[..j + 1] == seen + ks[..j] + [ks[j]];
    DiscoverSnoc(seen + ks[..j], ks[j]);
  }

  lemma AllKeysSnoc(ds: seq<JsObject>, n: nat)
    requires n < |ds|
    ensures AllKeys(ds[..n + 1]) == AllKeys(ds[..n]) + ds[n].keys
  {
    assert ds[..n + 1][..n] == ds[..n];
  }

  /** The loops of lines 148-156: a `Set` filled node by node, key by key. */
  method CollectAttributeKeys(ds: seq<JsObject>) returns (keys: seq<string>)
    ensures keys == DiscoveredKeys(ds)
  {
    keys := [];
    for n := 0 to |ds|
      invariant keys == Discover(AllKeys(ds[..n]))
    {
      var attributes := ds[n];
      ghost var seen := AllKeys(ds[..n]);
      assert seen + attributes.keys[..0] == seen;
      for j := 0 to |attributes.keys|
        invariant keys == Discover(seen + attributes.keys[..j])
      {
        var key := attributes.keys[j];
        DiscoverStep(seen, attributes.keys, j);
        if key != "id" && key != "label" && key != "x" && key != "y" {
          if key !in keys {
            keys := keys + [key];
          }
        }
      }
      assert attributes.keys[..|attributes.keys|] == attributes.keys;
      AllKeysSnoc(ds, n);
    }
    assert ds[..|ds|] == ds;
  }

  /** A key stream whose keys were all seen before, or are reserved, adds
      nothing. */
  lemma {:induction false} DiscoverSeen(s: seq<string>, t: seq<string>)
    requires forall k :: k in t ==> Reserved(k) || k in Discover(s)
    ensures Discover(s + t) == Discover(s)
    decreases |t|
  {
    if t == [] {
      assert s + t == s;
    } else {
      var init := t[..|t| - 1];
      assert forall k :: k in init ==> k in t;
      DiscoverSeen(s, init);
      assert s + t == (s + init) + [t[|t| - 1]];
      DiscoverSnoc(s + init, t[|t| - 1]);
    }
  }

  /** When every node's data has the same keys, the offered keys are those of
      one node. */
  lemma {:induction false} SameKeys(ds: seq<JsObject>, ks: seq<string>)
    requires ds != []
    requires forall n :: 0 <= n < |ds| ==> ds[n].keys == ks
    ensures DiscoveredKeys(ds) == Discover(ks)
    decreases |ds|
  {
    var init := ds[..|ds| - 1];
    if init == [] {
      assert ds == [ds[0]];
      assert AllKeys(ds) == AllKeys(init) + ks;
      assert [] + ks == ks;
    } else {
      SameKeys(init, ks);
      DiscoverMembers(ks);
      DiscoverSeen(AllKeys(init), ks);
    }
  }
}
