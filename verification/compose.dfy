/** The parsed compose manifest and the list of container names the monitor
    watches. Reading and deserialising the file are outside this module: a
    `ComposeFile` value is what the YAML parser would have produced. */
module Compose {

  datatype Option<+T> = None | Some(value: T)

  /** One service declaration: an image and an optional explicit container name. */
  datatype Service = Service(image: string, containerName: Option<string>)

  /** The manifest: service name -> declaration. */
  datatype ComposeFile = ComposeFile(services: map<string, Service>)

  /** `order` lists every key of the map exactly once: one possible iteration
      order of the services, which the map itself does not fix. */
  ghost predicate Enumerates(order: seq<string>, keys: set<string>)
  {
    (forall i, j :: 0 <= i < j < |order| ==> order[i] != order[j]) &&
    (forall k :: k in order <==> k in keys)
  }

  /** What one service contributes to the watch list: its container name, if any. */
  function NameOf(services: map<string, Service>, key: string): seq<string>
  {
    if key in services && services[key].containerName.Some?
    then [services[key].containerName.value]
    else []
  }

  /** The filter_map over the services visited in the order `keys`. */
  function NamesOf(services: map<string, Service>, keys: seq<string>): (r: seq<string>)
    ensures |r| <= |keys|
    ensures forall n :: n in r <==>
      exists i :: 0 <= i < |keys| && keys[i] in services && services[keys[i]].containerName == Some(n)
  {
    if keys == [] then []
    else
      var rest := NamesOf(services, keys[1..]);
      assert forall i :: 0 < i < |keys| ==> keys[i] == keys[1..][i - 1];
      NameOf(services, keys[0]) + rest
  }

  /** The names to watch, collected from the services in the iteration order
      `order`. Exactly the container names that some service defines. */
  function ExpectedNames(compose: ComposeFile, order: seq<string>): (r: seq<string>)
    requires Enumerates(order, compose.services.Keys)
    ensures |r| <= |compose.services|
    ensures forall n :: n in r <==>
      exists k :: k in compose.services && compose.services[k].containerName == Some(n)
  {
    DistinctLength(order, compose.services.Keys);
    var r := NamesOf(compose.services, order);
    forall n | n in r
      ensures exists k :: k in compose.services && compose.services[k].containerName == Some(n)
    {
      var i :| 0 <= i < |order| && order[i] in compose.services
        && compose.services[order[i]].containerName == Some(n);
      assert order[i] in compose.services;
    }
    forall n, k | k in compose.services && compose.services[k].containerName == Some(n)
      ensures n in r
    {
      assert k in order;
      var i :| 0 <= i < |order| && order[i] == k;
    }
    r
  }

  /** A manifest in which no service names its container yields no names. */
  lemma NoContainerNamesNoneExpected(compose: ComposeFile, order: seq<string>)
    requires Enumerates(order, compose.services.Keys)
    requires forall k :: k in compose.services ==> compose.services[k].containerName.None?
    ensures ExpectedNames(compose, order) == []
  {
    NamesOfNone(compose.services, order);
  }

  lemma {:induction false} NamesOfNone(services: map<string, Service>, keys: seq<string>)
    requires forall k :: k in services ==> services[k].containerName.None?
    ensures NamesOf(services, keys) == []
  {
    if keys != [] {
      NamesOfNone(services, keys[1..]);
    }
  }

  /** Visiting the services in any two iteration orders yields the same names
      with the same multiplicities: only the order of the list can differ. */
  lemma ExpectedNamesOrderIrrelevant(compose: ComposeFile, o1: seq<string>, o2: seq<string>)
    requires Enumerates(o1, compose.services.Keys)
    requires Enumerates(o2, compose.services.Keys)
    ensures multiset(ExpectedNames(compose, o1)) == multiset(ExpectedNames(compose, o2))
  {
    DistinctMultiset(o1);
    DistinctMultiset(o2);
    assert multiset(o1) == multiset(o2);
    NamesOfPermutation(compose.services, o1, o2);
  }

  // ---------------------------------------------------------------------
  // Helper lemmas about enumerations and the filter_map

  /** In a sequence without repeats every element occurs exactly once. */
  lemma {:induction false} DistinctMultiset(o: seq<string>)
    requires forall i, j :: 0 <= i < j < |o| ==> o[i] != o[j]
    ensures forall x :: multiset(o)[x] == if x in o then 1 else 0
  {
    if o != [] {
      DistinctMultiset(o[1..]);
      assert o == [o[0]] + o[1..];
      assert o[0] !in o[1..];
      forall x ensures multiset(o)[x] == if x in o then 1 else 0 {
        assert multiset(o) == multiset{o[0]} + multiset(o[1..]);
        assert x in o <==> x == o[0] || x in o[1..];
      }
    }
  }

  /** An enumeration of a key set is exactly as long as the set is large. */
  lemma {:induction false} DistinctLength(o: seq<string>, keys: set<string>)
    requires Enumerates(o, keys)
    ensures |o| == |keys|
  {
    if o == [] {
      assert keys == {};
    } else {
      var rest := keys - {o[0]};
      assert o[0] in keys;
      assert Enumerates(o[1..], rest) by {
        forall k ensures k in o[1..] <==> k in rest {
          assert o == [o[0]] + o[1..];
          if k in o[1..] {
            var j :| 0 <= j < |o[1..]| && o[1..][j] == k;
            assert o[j + 1] == k;
          }
        }
      }
      DistinctLength(o[1..], rest);
    }
  }

  lemma {:induction false} NamesOfAppend(services: map<string, Service>, a: seq<string>, b: seq<string>)
    ensures NamesOf(services, a + b) == NamesOf(services, a) + NamesOf(services, b)
  {
    if a == [] {
      assert a + b == b;
    } else {
      assert (a + b)[0] == a[0];
      assert (a + b)[1..] == a[1..] + b;
      NamesOfAppend(services, a[1..], b);
    }
  }

  /** The filter_map depends only on the multiset of visited keys, up to order. */
  lemma {:induction false} NamesOfPermutation(services: map<string, Service>, a: seq<string>, b: seq<string>)
    requires multiset(a) == multiset(b)
    ensures multiset(NamesOf(services, a)) == multiset(NamesOf(services, b))
    decreases |a|
  {
    if a == [] {
      assert |b| == |multiset(b)| == |multiset(a)| == 0;
    } else {
      var x := a[0];
      assert x in multiset(b) by { assert x in multiset(a); }
      var j :| 0 <= j < |b| && b[j] == x;
      RemoveOne(a, b, j);
      NamesOfPermutation(services, a[1..], b[..j] + b[j + 1..]);
      NamesOfSplit(services, b, j);
      assert NamesOf(services, a) == NameOf(services, x) + NamesOf(services, a[1..]);
    }
  }

  /** Removing the same element from two equal multisets leaves equal multisets. */
  lemma RemoveOne(a: seq<string>, b: seq<string>, j: nat)
    requires multiset(a) == multiset(b) && a != [] && j < |b| && b[j] == a[0]
    ensures multiset(a[1..]) == multiset(b[..j] + b[j + 1..])
  {
    var x := a[0];
    assert a == [x] + a[1..];
    assert b == b[..j] + [x] + b[j + 1..];
    assert multiset(a) == multiset{x} + multiset(a[1..]);
    assert multiset(b) == multiset(b[..j]) + multiset{x} + multiset(b[j + 1..]) by {
      assert multiset(b[..j] + [x] + b[j + 1..]) == multiset(b[..j] + [x]) + multiset(b[j + 1..]);
      assert multiset(b[..j] + [x]) == multiset(b[..j]) + multiset{x};
    }
    assert multiset(b[..j] + b[j + 1..]) == multiset(b[..j]) + multiset(b[j + 1..]);
    forall y ensures multiset(a[1..])[y] == multiset(b[..j] + b[j + 1..])[y] {
      assert multiset(a)[y] == multiset{x}[y] + multiset(a[1..])[y];
      assert multiset(b)[y] == multiset(b[..j])[y] + multiset{x}[y] + multiset(b[j + 1..])[y];
    }
  }

  /** The names from `b` are those of `b` with position `j` removed, plus that key's. */
  lemma NamesOfSplit(services: map<string, Service>, b: seq<string>, j: nat)
    requires j < |b|
    ensures multiset(NamesOf(services, b))
         == multiset(NameOf(services, b[j])) + multiset(NamesOf(services, b[..j] + b[j + 1..]))
  {
    var pre, x, post := b[..j], b[j], b[j + 1..];
    assert b == (pre + [x]) + post;
    NamesOfAppend(services, pre + [x], post);
    NamesOfAppend(services, pre, [x]);
    NamesOfAppend(services, pre, post);
    assert NamesOf(services, [x]) == NameOf(services, x) by {
      assert [x][1..] == [];
    }
    var np, nx, nq := NamesOf(services, pre), NameOf(services, x), NamesOf(services, post);
    assert NamesOf(services, b) == (np + nx) + nq;
    assert NamesOf(services, pre + post) == np + nq;
    assert multiset((np + nx) + nq) == multiset(np) + multiset(nx) + multiset(nq);
    assert multiset(np + nq) == multiset(np) + multiset(nq);
  }
}
