/**
 * Go's `for ... range` over a map visits every key once, in an order the language leaves
 * unspecified. The model takes that order from the caller as a key sequence and assumes
 * nothing about it beyond the two facts below. Map keys are city names here.
 */
module Iteration {

  ghost predicate NoDuplicates(keys: seq<string>) {
    forall i, j :: 0 <= i < j < |keys| ==> keys[i] != keys[j]
  }

  /** `keys` visits every key of `m` exactly once. */
  ghost predicate Enumerates<V>(keys: seq<string>, m: map<string, V>) {
    NoDuplicates(keys) && (forall k :: k in keys <==> k in m)
  }

  /** The keys of `keys` that lie in `s`, in visiting order: what a loop that skips the others appends. */
  function Select(keys: seq<string>, s: set<string>): (r: seq<string>)
    ensures |r| <= |keys|
    ensures forall k :: k in r <==> k in keys && k in s
  {
    if keys == [] then []
    else Select(keys[..|keys| - 1], s) + (if keys[|keys| - 1] in s then [keys[|keys| - 1]] else [])
  }

  /** A listing without its last key is still duplicate-free and does not hold that key. */
  lemma DropLast(keys: seq<string>)
    requires NoDuplicates(keys) && keys != []
    ensures NoDuplicates(keys[..|keys| - 1])
    ensures keys[|keys| - 1] !in keys[..|keys| - 1]
  {
    var init := keys[..|keys| - 1];
    forall i | 0 <= i < |init| ensures init[i] != keys[|keys| - 1] {
      assert init[i] == keys[i];
    }
  }

  /** Selecting from a duplicate-free listing selects no key twice. */
  lemma {:induction false} SelectNoDuplicates(keys: seq<string>, s: set<string>)
    requires NoDuplicates(keys)
    ensures NoDuplicates(Select(keys, s))
  {
    if keys != [] {
      var init, last := keys[..|keys| - 1], keys[|keys| - 1];
      DropLast(keys);
      SelectNoDuplicates(init, s);
      var r0 := Select(init, s);
      if last in s {
        assert last !in r0;
        var r := r0 + [last];
        forall i, j | 0 <= i < j < |r| ensures r[i] != r[j] {
          assert r[i] == r0[i];
        }
      }
    }
  }

  /** Selecting from a duplicate-free listing gives as many keys as the listing shares with `s`. */
  lemma {:induction false} SelectCount(keys: seq<string>, s: set<string>)
    requires NoDuplicates(keys)
    ensures NoDuplicates(Select(keys, s))
    ensures |Select(keys, s)| == |set k | k in keys && k in s|
  {
    SelectNoDuplicates(keys, s);
    if keys == [] {
      assert (set k | k in keys && k in s) == {};
    } else {
      var init, last := keys[..|keys| - 1], keys[|keys| - 1];
      DropLast(keys);
      SelectCount(init, s);
      assert keys == init + [last];
      SharedSnoc(init, last, s);
    }
  }

  /** The keys a listing shares with `s` gain its new last key exactly when that key lies in `s`. */
  lemma SharedSnoc(init: seq<string>, last: string, s: set<string>)
    requires last !in init
    ensures |set k | k in init + [last] && k in s|
         == |set k | k in init && k in s| + (if last in s then 1 else 0)
  {
    var before := set k | k in init && k in s;
    var after := set k | k in init + [last] && k in s;
    if last in s {
      assert after == before + {last};
    } else {
      assert after == before;
    }
  }

  /** When `keys` enumerates `m`, selecting a subset of `m`'s keys gives every one of them. */
  lemma SelectAll<V>(keys: seq<string>, m: map<string, V>, s: set<string>)
    requires Enumerates(keys, m) && s <= m.Keys
    ensures NoDuplicates(Select(keys, s))
    ensures |Select(keys, s)| == |s|
  {
    SelectCount(keys, s);
    assert (set k | k in keys && k in s) == s;
  }

  /** Selecting from one more key appends that key when it lies in `s`. */
  lemma SelectSnoc(keys: seq<string>, i: nat, s: set<string>)
    requires i < |keys|
    ensures Select(keys[..i + 1], s) == Select(keys[..i], s) + (if keys[i] in s then [keys[i]] else [])
  {
    assert keys[..i + 1][..i] == keys[..i];
  }
}
