/**
 * The cluster object store as the controller sees it through its client:
 * Demo objects by namespace/name, and pods in the order the store lists them.
 * Each call takes an `unavailable` flag, supplied by the environment, that
 * makes the call fail the way a network or availability error would.
 */
module Store {
  import opened Wrappers
  import opened CoreV1
  import opened DemoTypes

  /** The calls that can fail for reasons outside the controller. */
  datatype Call = GetCall | ListCall | CreateCall | DeleteCall

  datatype Error =
    | NotFound(key: NamespacedName)
    | AlreadyExists(key: NamespacedName)
    | Unavailable(call: Call)
    | OwnerRefRejected
    | SlicePanic(high: int, length: int)

  datatype Result<T> = Ok(value: T) | Err(error: Error)

  /** Every key of the selector is present in the labels with the same value. */
  predicate LabelsMatch(labels: map<string, string>, selector: map<string, string>) {
    forall k | k in selector :: k in labels && labels[k] == selector[k]
  }

  /** A pod is listed for a namespace and a label selector. */
  predicate Matches(p: Pod, namespace: string, selector: map<string, string>) {
    p.namespace == namespace && LabelsMatch(p.labels, selector)
  }

  /** The pods a List call returns, in store order. */
  function Selected(pods: seq<Pod>, namespace: string, selector: map<string, string>): (r: seq<Pod>)
    ensures |r| <= |pods|
    ensures forall p {:trigger p in r} :: p in r <==> p in pods && Matches(p, namespace, selector)
  {
    if pods == [] then []
    else
      (if Matches(pods[0], namespace, selector) then [pods[0]] else [])
      + Selected(pods[1..], namespace, selector)
  }

  function KeysOf(pods: seq<Pod>): set<NamespacedName> {
    set p | p in pods :: Key(p)
  }

  /** The pods whose keys are not in `keys`, in store order. */
  function Without(pods: seq<Pod>, keys: set<NamespacedName>): (r: seq<Pod>)
    ensures |r| <= |pods|
    ensures forall p {:trigger p in r} :: p in r <==> p in pods && Key(p) !in keys
  {
    if pods == [] then []
    else
      (if Key(pods[0]) !in keys then [pods[0]] else [])
      + Without(pods[1..], keys)
  }

  /** The store holds at most one pod per namespace/name. */
  ghost predicate UniqueKeys(pods: seq<Pod>) {
    forall i, j | 0 <= i < j < |pods| :: Key(pods[i]) != Key(pods[j])
  }

  /** Each Demo is stored under its own namespace and name. */
  ghost predicate WellKeyed(demos: map<NamespacedName, Demo>) {
    forall k | k in demos :: demos[k].namespace == k.namespace && demos[k].name == k.name
  }

  class Client {
    var demos: map<NamespacedName, Demo>
    var pods: seq<Pod>

    ghost predicate Valid()
      reads this
    {
      WellKeyed(demos) && UniqueKeys(pods)
    }

    constructor (demos: map<NamespacedName, Demo>, pods: seq<Pod>)
      requires WellKeyed(demos) && UniqueKeys(pods)
      ensures Valid() && this.demos == demos && this.pods == pods
    {
      this.demos := demos;
      this.pods := pods;
    }

    /** Fetches the Demo stored under `key`. */
    method Get(key: NamespacedName, unavailable: bool) returns (r: Result<Demo>)
      ensures r.Ok? <==> !unavailable && key in demos
      ensures r.Ok? ==> r.value == demos[key]
      ensures r.Err? ==> r.error == if unavailable then Unavailable(GetCall) else NotFound(key)
    {
      if unavailable {
        return Err(Unavailable(GetCall));
      }
      if key !in demos {
        return Err(NotFound(key));
      }
      r := Ok(demos[key]);
    }

    /** Lists the pods of `namespace` whose labels match `selector`, in store order. */
    method List(namespace: string, selector: map<string, string>, unavailable: bool)
      returns (r: Result<seq<Pod>>)
      ensures r.Ok? <==> !unavailable
      ensures r.Err? ==> r.error == Unavailable(ListCall)
      ensures r.Ok? ==> r.value == Selected(pods, namespace, selector)
    {
      if unavailable {
        return Err(Unavailable(ListCall));
      }
      r := Ok(Selected(pods, namespace, selector));
    }

    /** Stores a new pod; a pod with the same namespace/name is a conflict. */
    method Create(pod: Pod, unavailable: bool) returns (err: Option<Error>)
      requires Valid()
      modifies this
      ensures Valid() && demos == old(demos)
      ensures err.None? <==> !unavailable && Key(pod) !in KeysOf(old(pods))
      ensures err.Some? ==> pods == old(pods)
      ensures err.Some? && !unavailable ==> err.value == AlreadyExists(Key(pod))
      ensures err.Some? && unavailable ==> err.value == Unavailable(CreateCall)
      ensures err.None? ==> pods == old(pods) + [pod]
    {
      if unavailable {
        return Some(Unavailable(CreateCall));
      }
      if Key(pod) in KeysOf(pods) {
        return Some(AlreadyExists(Key(pod)));
      }
      UniqueAppend(pods, pod);
      pods := pods + [pod];
      err := None;
    }

    /** Deletes the stored pod with the namespace/name of `pod`. */
    method Delete(pod: Pod, unavailable: bool) returns (err: Option<Error>)
      requires Valid()
      modifies this
      ensures Valid() && demos == old(demos)
      ensures err.None? <==> !unavailable && Key(pod) in KeysOf(old(pods))
      ensures err.Some? ==> pods == old(pods)
      ensures err.Some? && !unavailable ==> err.value == NotFound(Key(pod))
      ensures err.Some? && unavailable ==> err.value == Unavailable(DeleteCall)
      ensures err.None? ==> pods == Without(old(pods), {Key(pod)})
    {
      if unavailable {
        return Some(Unavailable(DeleteCall));
      }
      if Key(pod) !in KeysOf(pods) {
        return Some(NotFound(Key(pod)));
      }
      UniqueWithout(pods, {Key(pod)});
      pods := Without(pods, {Key(pod)});
      err := None;
    }
  }

  // Lemmas about listing and removal.

  lemma UniqueCons(x: Pod, r: seq<Pod>)
    ensures UniqueKeys([x] + r) <==> Key(x) !in KeysOf(r) && UniqueKeys(r)
  {
    var s := [x] + r;
    if UniqueKeys(s) {
      forall i, j | 0 <= i < j < |r| ensures Key(r[i]) != Key(r[j]) {
        assert r[i] == s[i + 1] && r[j] == s[j + 1];
      }
      forall p | p in r ensures Key(p) != Key(x) {
        var j :| 0 <= j < |r| && r[j] == p;
        assert s[0] == x && s[j + 1] == p;
      }
    }
    if Key(x) !in KeysOf(r) && UniqueKeys(r) {
      forall i, j | 0 <= i < j < |s| ensures Key(s[i]) != Key(s[j]) {
        if i == 0 {
          assert s[j] == r[j - 1] && s[j] in r;
        } else {
          assert s[i] == r[i - 1] && s[j] == r[j - 1];
        }
      }
    }
  }

  lemma UniqueAppend(s: seq<Pod>, p: Pod)
    requires UniqueKeys(s) && Key(p) !in KeysOf(s)
    ensures UniqueKeys(s + [p])
  {
    var t := s + [p];
    forall i | 0 <= i < |s| ensures Key(t[i]) != Key(p) {
      assert t[i] == s[i] && t[i] in s;
    }
  }

  /** Removing pods from a store with unique keys leaves unique keys. */
  lemma {:induction false} UniqueWithout(s: seq<Pod>, keys: set<NamespacedName>)
    requires UniqueKeys(s)
    ensures UniqueKeys(Without(s, keys))
  {
    if s != [] {
      assert s == [s[0]] + s[1..];
      UniqueCons(s[0], s[1..]);
      UniqueWithout(s[1..], keys);
      var rest := Without(s[1..], keys);
      if Key(s[0]) !in keys {
        assert KeysOf(rest) <= KeysOf(s[1..]);
        UniqueCons(s[0], rest);
      }
    }
  }

  /** A listing of a store with unique keys has unique keys. */
  lemma {:induction false} UniqueSelected(s: seq<Pod>, namespace: string, selector: map<string, string>)
    requires UniqueKeys(s)
    ensures UniqueKeys(Selected(s, namespace, selector))
  {
    if s != [] {
      assert s == [s[0]] + s[1..];
      UniqueCons(s[0], s[1..]);
      UniqueSelected(s[1..], namespace, selector);
      var rest := Selected(s[1..], namespace, selector);
      if Matches(s[0], namespace, selector) {
        assert KeysOf(rest) <= KeysOf(s[1..]);
        UniqueCons(s[0], rest);
      }
    }
  }

  /** Listing distributes over concatenation, so new pods appear after old ones. */
  lemma {:induction false} SelectedAppend(a: seq<Pod>, b: seq<Pod>, namespace: string, selector: map<string, string>)
    ensures Selected(a + b, namespace, selector) == Selected(a, namespace, selector) + Selected(b, namespace, selector)
  {
    if a != [] {
      assert (a + b)[1..] == a[1..] + b;
      SelectedAppend(a[1..], b, namespace, selector);
    } else {
      assert a + b == b;
    }
  }

  /** A listing in which every pod matches is the whole sequence. */
  lemma {:induction false} SelectedAll(s: seq<Pod>, namespace: string, selector: map<string, string>)
    requires forall p | p in s :: Matches(p, namespace, selector)
    ensures Selected(s, namespace, selector) == s
  {
    if s != [] {
      SelectedAll(s[1..], namespace, selector);
      assert s == [s[0]] + s[1..];
    }
  }

  /** A listing in which no pod matches is empty. */
  lemma SelectedNone(s: seq<Pod>, namespace: string, selector: map<string, string>)
    requires forall p | p in s :: !Matches(p, namespace, selector)
    ensures Selected(s, namespace, selector) == []
  {
  }

  lemma WithoutCons(x: Pod, r: seq<Pod>, keys: set<NamespacedName>)
    ensures Key(x) !in keys ==> Without([x] + r, keys) == [x] + Without(r, keys)
    ensures Key(x) in keys ==> Without([x] + r, keys) == Without(r, keys)
  {
    assert ([x] + r)[0] == x && ([x] + r)[1..] == r;
    assert [] + Without(r, keys) == Without(r, keys);
  }

  lemma SelectedCons(x: Pod, r: seq<Pod>, namespace: string, selector: map<string, string>)
    ensures Matches(x, namespace, selector) ==> Selected([x] + r, namespace, selector) == [x] + Selected(r, namespace, selector)
    ensures !Matches(x, namespace, selector) ==> Selected([x] + r, namespace, selector) == Selected(r, namespace, selector)
  {
    assert ([x] + r)[0] == x && ([x] + r)[1..] == r;
    assert [] + Selected(r, namespace, selector) == Selected(r, namespace, selector);
  }

  /** Removing a stored key removes at least one pod. */
  lemma {:induction false} WithoutPresent(s: seq<Pod>, key: NamespacedName)
    requires key in KeysOf(s)
    ensures |Without(s, {key})| < |s|
  {
    if Key(s[0]) != key {
      var p :| p in s && Key(p) == key;
      assert p in s[1..];
      WithoutPresent(s[1..], key);
    }
  }

  /** Removing one set of keys after another removes their union. */
  lemma {:induction false} WithoutWithout(s: seq<Pod>, a: set<NamespacedName>, b: set<NamespacedName>)
    ensures Without(Without(s, a), b) == Without(s, a + b)
  {
    if s != [] {
      var x, r := s[0], s[1..];
      assert s == [x] + r;
      WithoutWithout(r, a, b);
      WithoutCons(x, r, a);
      WithoutCons(x, r, a + b);
      if Key(x) !in a {
        WithoutCons(x, Without(r, a), b);
      }
    }
  }

  /** Listing and removal by key commute. */
  lemma {:induction false} SelectedWithout(s: seq<Pod>, keys: set<NamespacedName>, namespace: string, selector: map<string, string>)
    ensures Selected(Without(s, keys), namespace, selector) == Without(Selected(s, namespace, selector), keys)
  {
    if s != [] {
      var x, r := s[0], s[1..];
      assert s == [x] + r;
      SelectedWithout(r, keys, namespace, selector);
      WithoutCons(x, r, keys);
      SelectedCons(x, r, namespace, selector);
      if Key(x) !in keys {
        SelectedCons(x, Without(r, keys), namespace, selector);
      }
      if Matches(x, namespace, selector) {
        WithoutCons(x, Selected(r, namespace, selector), keys);
      }
    }
  }

  /** Removing the keys of exactly the first `d` pods leaves the rest in order. */
  lemma {:induction false} WithoutLeading(s: seq<Pod>, d: nat, keys: set<NamespacedName>)
    requires d <= |s|
    requires forall i | 0 <= i < |s| :: Key(s[i]) in keys <==> i < d
    ensures Without(s, keys) == s[d..]
  {
    if s != [] {
      forall i | 0 <= i < |s| - 1 ensures Key(s[1..][i]) in keys <==> i < d - 1 {
        assert s[1..][i] == s[i + 1];
      }
      if d > 0 {
        WithoutLeading(s[1..], d - 1, keys);
        assert s[1..][d - 1..] == s[d..];
      } else {
        WithoutLeading(s[1..], 0, keys);
      }
    }
  }

  /** In a sequence with unique keys, dropping the keys of a prefix drops exactly that prefix. */
  lemma WithoutPrefixKeys(s: seq<Pod>, d: nat)
    requires UniqueKeys(s) && d <= |s|
    ensures Without(s, KeysOf(s[..d])) == s[d..]
  {
    var keys := KeysOf(s[..d]);
    forall i | 0 <= i < |s| ensures Key(s[i]) in keys <==> i < d {
      if i < d {
        assert s[i] == s[..d][i] && s[i] in s[..d];
      }
    }
    WithoutLeading(s, d, keys);
  }
}
