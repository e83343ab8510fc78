/**
 * What one reconcile call does to the store, and what two calls in a row do,
 * stated over `Reconciled`, the function `DemoReconciler.Reconcile` is proved
 * to follow.
 */
module ReconcileProperties {
  import opened Wrappers
  import opened CoreV1
  import opened DemoTypes
  import opened Store
  import opened DemoController

  /** Get and List both succeed and the Demo exists. */
  ghost predicate Fetched(demos: map<NamespacedName, Demo>, req: NamespacedName, env: Environment) {
    !env.getUnavailable && !env.listUnavailable && req in demos
  }

  /** The pods the call lists for the Demo stored under `req`. */
  function Listed(demos: map<NamespacedName, Demo>, pods: seq<Pod>, req: NamespacedName): seq<Pod>
    requires req in demos
  {
    Selected(pods, req.namespace, AppSelector(demos[req].name))
  }

  function Want(demos: map<NamespacedName, Demo>, req: NamespacedName): int
    requires req in demos
  {
    demos[req].spec.replicas as int
  }

  /** Neither SetControllerReference nor Create fails at iterations `from` up to `to`. */
  predicate NoCreateFault(env: Environment, from: nat, to: nat) {
    && (env.ownerRefFailsAt.None? || env.ownerRefFailsAt.value < from || env.ownerRefFailsAt.value >= to)
    && (env.createFailsAt.None? || env.createFailsAt.value < from || env.createFailsAt.value >= to)
  }

  /** Delete does not fail before iteration `to`. */
  predicate NoDeleteFault(env: Environment, to: nat) {
    env.deleteFailsAt.None? || env.deleteFailsAt.value >= to
  }

  /**
   * The names generated at iterations `from` up to `to` are pairwise distinct
   * and collide with no pod already in the store.
   */
  ghost predicate FreshNames(pods: seq<Pod>, demo: Demo, from: nat, to: nat, env: Environment) {
    && (forall i | from <= i < to :: Key(OwnedPod(demo, i, env)) !in KeysOf(pods))
    && (forall i, j | from <= i < j < to :: env.suffix(i) != env.suffix(j))
  }

  /** The created pod's name determines the UUID prefix drawn for it. */
  lemma NameDeterminesSuffix(demo: Demo, s: Suffix, t: Suffix)
    requires NewPod(demo, s).name == NewPod(demo, t).name
    ensures s == t
  {
    var prefix := demo.name + "-";
    assert (prefix + s)[|prefix|..] == s;
    assert (prefix + t)[|prefix|..] == t;
  }

  /**
   * A prefix is the shorter prefix and its last element. Stated as a lemma so
   * that the induction in `DeleteFromPrefix` sees only this one fact.
   */
  lemma SliceSnoc(s: seq<Pod>, k: nat)
    requires 0 < k <= |s|
    ensures s[..k] == s[..k - 1] + [s[k - 1]]
  {
  }

  /** Stated as a lemma so that `ScaleDownTo` sees only this one fact about slices. */
  lemma PrefixOfPrefix(s: seq<Pod>, d: nat, k: nat)
    requires k <= d <= |s|
    ensures s[..d][..k] == s[..k]
  {
  }

  lemma KeysOfAppend(s: seq<Pod>, p: Pod)
    ensures KeysOf(s + [p]) == KeysOf(s) + {Key(p)}
  {
    assert forall q | q in s + [p] :: q in s || q == p;
    assert p in s + [p];
    assert forall q | q in s :: q in s + [p];
  }

  /** Two pods of a store with unique keys that share a key are the same pod. */
  lemma KeyIdentifies(pods: seq<Pod>, a: Pod, b: Pod)
    requires UniqueKeys(pods) && a in pods && b in pods && Key(a) == Key(b)
    ensures a == b
  {
    var i :| 0 <= i < |pods| && pods[i] == a;
    var j :| 0 <= j < |pods| && pods[j] == b;
  }

  // The create loop.

  /**
   * While nothing fails and no name collides, iterations `i` up to `k` append
   * exactly their pods to the store, in order.
   */
  lemma {:induction false} CreateFromPrefix(pods: seq<Pod>, demo: Demo, i: nat, k: nat, n: nat, env: Environment)
    requires i <= k <= n
    requires NoCreateFault(env, i, k) && FreshNames(pods, demo, i, k, env)
    ensures CreateFrom(pods, demo, i, n, env) == CreateFrom(pods + CreatedPods(demo, i, k, env), demo, k, n, env)
    decreases k - i
  {
    if i == k {
      assert pods + CreatedPods(demo, i, k, env) == pods;
    } else {
      var p := OwnedPod(demo, i, env);
      CreateFromStep(pods, demo, i, n, env);
      FreshNamesStep(pods, demo, i, k, env);
      CreateFromPrefix(pods + [p], demo, i + 1, k, n, env);
      var rest := CreatedPods(demo, i + 1, k, env);
      assert CreatedPods(demo, i, k, env) == [p] + rest;
      assert pods + [p] + rest == pods + ([p] + rest);
      assert pods + CreatedPods(demo, i, k, env) == pods + [p] + rest;
    }
  }

  /** An iteration with no failure and a fresh name appends its pod and moves on. */
  lemma CreateFromStep(pods: seq<Pod>, demo: Demo, i: nat, n: nat, env: Environment)
    requires i < n && env.ownerRefFailsAt != Some(i) && env.createFailsAt != Some(i)
    requires Key(OwnedPod(demo, i, env)) !in KeysOf(pods)
    ensures CreateFrom(pods, demo, i, n, env) == CreateFrom(pods + [OwnedPod(demo, i, env)], demo, i + 1, n, env)
  {
  }

  /** Names fresh for the store stay fresh once the first of them is taken. */
  lemma FreshNamesStep(pods: seq<Pod>, demo: Demo, i: nat, k: nat, env: Environment)
    requires i < k && FreshNames(pods, demo, i, k, env)
    ensures FreshNames(pods + [OwnedPod(demo, i, env)], demo, i + 1, k, env)
  {
    var p := OwnedPod(demo, i, env);
    KeysOfAppend(pods, p);
    forall j | i + 1 <= j < k ensures Key(OwnedPod(demo, j, env)) != Key(p) {
      if Key(OwnedPod(demo, j, env)) == Key(p) {
        NameDeterminesSuffix(demo, env.suffix(j), env.suffix(i));
      }
    }
  }

  /** A create loop that returns no error has appended all its pods. */
  lemma {:induction false} CreateFromDone(pods: seq<Pod>, demo: Demo, i: nat, n: nat, env: Environment)
    requires CreateFrom(pods, demo, i, n, env).err.None?
    ensures CreateFrom(pods, demo, i, n, env).pods == pods + CreatedPods(demo, i, n, env)
    decreases n - i
  {
    if i >= n {
      assert pods + CreatedPods(demo, i, n, env) == pods;
    } else {
      var p := OwnedPod(demo, i, env);
      assert CreateFrom(pods, demo, i, n, env) == CreateFrom(pods + [p], demo, i + 1, n, env);
      CreateFromDone(pods + [p], demo, i + 1, n, env);
      assert pods + [p] + CreatedPods(demo, i + 1, n, env) == pods + ([p] + CreatedPods(demo, i + 1, n, env));
    }
  }

  /** The create loop only appends: the pods it started with stay, in place. */
  lemma {:induction false} CreateFromKeeps(pods: seq<Pod>, demo: Demo, i: nat, n: nat, env: Environment)
    ensures |CreateFrom(pods, demo, i, n, env).pods| >= |pods|
    ensures CreateFrom(pods, demo, i, n, env).pods[..|pods|] == pods
    decreases n - i
  {
    if i < n && env.ownerRefFailsAt != Some(i) && env.createFailsAt != Some(i) {
      var p := OwnedPod(demo, i, env);
      if Key(p) !in KeysOf(pods) {
        CreateFromKeeps(pods + [p], demo, i + 1, n, env);
        assert (pods + [p])[..|pods|] == pods;
      }
    }
  }

  // The delete loop.

  /**
   * While no Delete fails, iterations 0 up to `k` remove exactly the first `k`
   * victims from the store: each is still present when its turn comes.
   */
  lemma {:induction false} DeleteFromPrefix(pods: seq<Pod>, victims: seq<Pod>, k: nat, env: Environment)
    requires k <= |victims|
    requires UniqueKeys(victims) && KeysOf(victims) <= KeysOf(pods)
    requires NoDeleteFault(env, k)
    ensures DeleteFrom(pods, victims, 0, env) == DeleteFrom(Without(pods, KeysOf(victims[..k])), victims, k, env)
  {
    if k == 0 {
      assert KeysOf(victims[..0]) == {};
      WithoutNothing(pods);
    } else {
      DeleteFromPrefix(pods, victims, k - 1, env);
      var done := KeysOf(victims[..k - 1]);
      var v := victims[k - 1];
      StillPresent(pods, victims, k);
      DeleteFromStep(Without(pods, done), victims, k - 1, env);
      WithoutWithout(pods, done, {Key(v)});
      SliceSnoc(victims, k);
      KeysOfAppend(victims[..k - 1], v);
    }
  }

  /** An iteration with no failure whose victim is present removes it and moves on. */
  lemma DeleteFromStep(pods: seq<Pod>, victims: seq<Pod>, i: nat, env: Environment)
    requires i < |victims| && env.deleteFailsAt != Some(i)
    requires Key(victims[i]) in KeysOf(pods)
    ensures DeleteFrom(pods, victims, i, env) == DeleteFrom(Without(pods, {Key(victims[i])}), victims, i + 1, env)
  {
  }

  /** With distinct victims, deleting the earlier ones leaves the next one in the store. */
  lemma StillPresent(pods: seq<Pod>, victims: seq<Pod>, k: nat)
    requires 0 < k <= |victims|
    requires UniqueKeys(victims) && KeysOf(victims) <= KeysOf(pods)
    ensures Key(victims[k - 1]) in KeysOf(Without(pods, KeysOf(victims[..k - 1])))
  {
    var v := victims[k - 1];
    assert v in victims && Key(v) in KeysOf(victims);
    var p :| p in pods && Key(p) == Key(v);
    forall q | q in victims[..k - 1] ensures Key(q) != Key(v) {
      var j :| 0 <= j < k - 1 && victims[..k - 1][j] == q;
      assert victims[j] == q;
    }
    assert p in Without(pods, KeysOf(victims[..k - 1]));
  }

  lemma {:induction false} WithoutNothing(s: seq<Pod>)
    ensures Without(s, {}) == s
  {
    if s != [] {
      WithoutNothing(s[1..]);
      assert s == [s[0]] + s[1..];
    }
  }

  /** A delete loop that returns no error has removed every remaining victim. */
  lemma {:induction false} DeleteFromDone(pods: seq<Pod>, victims: seq<Pod>, i: nat, env: Environment)
    requires i <= |victims|
    requires DeleteFrom(pods, victims, i, env).err.None?
    ensures DeleteFrom(pods, victims, i, env).pods == Without(pods, KeysOf(victims[i..]))
    decreases |victims| - i
  {
    if i == |victims| {
      assert KeysOf(victims[i..]) == {};
      WithoutNothing(pods);
    } else {
      var key := Key(victims[i]);
      DeleteFromStep(pods, victims, i, env);
      DeleteFromDone(Without(pods, {key}), victims, i + 1, env);
      WithoutWithout(pods, {key}, KeysOf(victims[i + 1..]));
      KeysOfSuffix(victims, i);
    }
  }

  lemma KeysOfSuffix(s: seq<Pod>, i: nat)
    requires i < |s|
    ensures KeysOf(s[i..]) == {Key(s[i])} + KeysOf(s[i + 1..])
  {
    assert s[i..] == [s[i]] + s[i + 1..];
    assert forall q | q in s[i..] :: q == s[i] || q in s[i + 1..];
    assert forall q | q in s[i + 1..] :: q in s[i..];
  }

  /** The delete loop only removes: every pod it leaves was there before. */
  lemma {:induction false} DeleteFromKeeps(pods: seq<Pod>, victims: seq<Pod>, i: nat, env: Environment)
    ensures forall p | p in DeleteFrom(pods, victims, i, env).pods :: p in pods
    decreases |victims| - i
  {
    if i < |victims| && env.deleteFailsAt != Some(i) && Key(victims[i]) in KeysOf(pods) {
      DeleteFromKeeps(Without(pods, {Key(victims[i])}), victims, i + 1, env);
    }
  }

  // One call.

  /** With pods missing, the call is the create loop over the deficit and nothing else. */
  lemma ScaleUpBranch(demos: map<NamespacedName, Demo>, pods: seq<Pod>, req: NamespacedName, env: Environment)
    requires Fetched(demos, req, env)
    requires Want(demos, req) > |Listed(demos, pods, req)|
    ensures Reconciled(demos, pods, req, env)
         == CreateFrom(pods, demos[req], 0, Want(demos, req) - |Listed(demos, pods, req)|, env)
  {
    var up := CreateFrom(pods, demos[req], 0, Want(demos, req) - |Listed(demos, pods, req)|, env);
    if up.err.None? {
      assert !(Want(demos, req) < |Listed(demos, pods, req)|);
    }
  }

  /** With surplus pods and a non-negative count, the call is the delete loop over the first surplus pods. */
  lemma ScaleDownBranch(demos: map<NamespacedName, Demo>, pods: seq<Pod>, req: NamespacedName, env: Environment)
    requires Fetched(demos, req, env)
    requires 0 <= Want(demos, req) < |Listed(demos, pods, req)|
    ensures var listed := Listed(demos, pods, req);
      Reconciled(demos, pods, req, env) == DeleteFrom(pods, listed[..|listed| - Want(demos, req)], 0, env)
  {
  }

  /** A Demo that no longer exists is a successful no-op. */
  lemma MissingDemoIsNoOp(demos: map<NamespacedName, Demo>, pods: seq<Pod>, req: NamespacedName, env: Environment)
    requires !env.getUnavailable && req !in demos
    ensures Reconciled(demos, pods, req, env) == Outcome(None, pods)
  {
  }

  /** Any other Get failure is returned and the store is untouched. */
  lemma GetErrorIsReturned(demos: map<NamespacedName, Demo>, pods: seq<Pod>, req: NamespacedName, env: Environment)
    requires env.getUnavailable
    ensures Reconciled(demos, pods, req, env) == Outcome(Some(Unavailable(GetCall)), pods)
  {
  }

  /** A List failure is returned and no pod is created or deleted. */
  lemma ListErrorIsReturned(demos: map<NamespacedName, Demo>, pods: seq<Pod>, req: NamespacedName, env: Environment)
    requires !env.getUnavailable && req in demos && env.listUnavailable
    ensures Reconciled(demos, pods, req, env) == Outcome(Some(Unavailable(ListCall)), pods)
  {
  }

  /** When the listed count already equals the replica count nothing happens. */
  lemma InSyncIsNoOp(demos: map<NamespacedName, Demo>, pods: seq<Pod>, req: NamespacedName, env: Environment)
    requires Fetched(demos, req, env)
    requires Want(demos, req) == |Listed(demos, pods, req)|
    ensures Reconciled(demos, pods, req, env) == Outcome(None, pods)
  {
  }

  /**
   * Scale-up: with no failure and fresh names, exactly the deficit is
   * created, each pod a copy of the Demo's namespace, labels and template
   * spec, owned by the Demo and named <demo name>-<8 characters>; the pods
   * already stored keep their places.
   */
  lemma ScaleUpExact(demos: map<NamespacedName, Demo>, pods: seq<Pod>, req: NamespacedName, env: Environment)
    requires Fetched(demos, req, env)
    requires Want(demos, req) > |Listed(demos, pods, req)|
    requires NoCreateFault(env, 0, Want(demos, req) - |Listed(demos, pods, req)|)
    requires FreshNames(pods, demos[req], 0, Want(demos, req) - |Listed(demos, pods, req)|, env)
    ensures var o := Reconciled(demos, pods, req, env);
      var demo, n := demos[req], Want(demos, req) - |Listed(demos, pods, req)|;
      && o.err.None?
      && |o.pods| == |pods| + n
      && o.pods[..|pods|] == pods
      && o.pods[|pods|..] == CreatedPods(demo, 0, n, env)
      && forall q | q in o.pods[|pods|..] :: (
           && q.namespace == demo.namespace
           && q.labels == demo.labels
           && q.spec == demo.spec.template.spec
           && q.owner == Some(ControllerRef(demo))
           && |q.name| == |demo.name| + 9
           && q.name[..|demo.name| + 1] == demo.name + "-")
  {
    var demo, n := demos[req], Want(demos, req) - |Listed(demos, pods, req)|;
    ScaleUpBranch(demos, pods, req, env);
    CreateFromPrefix(pods, demo, 0, n, n, env);
    CreatedPodsShape(demo, 0, n, env);
    var created := pods + CreatedPods(demo, 0, n, env);
    assert created[..|pods|] == pods && created[|pods|..] == CreatedPods(demo, 0, n, env);
  }

  /**
   * Scale-up that fails at iteration `k`: the error of that step is returned,
   * the `k` earlier pods are in the store and no later creation is attempted.
   */
  lemma ScaleUpStopsAt(demos: map<NamespacedName, Demo>, pods: seq<Pod>, req: NamespacedName, env: Environment, k: nat)
    requires Fetched(demos, req, env)
    requires k < Want(demos, req) - |Listed(demos, pods, req)|
    requires NoCreateFault(env, 0, k) && FreshNames(pods, demos[req], 0, k, env)
    requires env.ownerRefFailsAt == Some(k) || env.createFailsAt == Some(k)
             || Key(OwnedPod(demos[req], k, env)) in KeysOf(pods + CreatedPods(demos[req], 0, k, env))
    ensures var o := Reconciled(demos, pods, req, env);
      && o.pods == pods + CreatedPods(demos[req], 0, k, env)
      && o.err == Some(
           if env.ownerRefFailsAt == Some(k) then OwnerRefRejected
           else if env.createFailsAt == Some(k) then Unavailable(CreateCall)
           else AlreadyExists(Key(OwnedPod(demos[req], k, env))))
  {
    var demo, n := demos[req], Want(demos, req) - |Listed(demos, pods, req)|;
    ScaleUpBranch(demos, pods, req, env);
    CreateFromPrefix(pods, demo, 0, k, n, env);
    var created := pods + CreatedPods(demo, 0, k, env);
    assert forall p | p in pods :: p in created;
  }

  /**
   * Scale-down: with no failing Delete, exactly the first `count - replicas`
   * listed pods are removed; the listed pods that remain are the rest of the
   * listing in the same order, and no pod outside the listing is touched.
   */
  lemma ScaleDownExact(demos: map<NamespacedName, Demo>, pods: seq<Pod>, req: NamespacedName, env: Environment)
    requires UniqueKeys(pods) && Fetched(demos, req, env)
    requires 0 <= Want(demos, req) < |Listed(demos, pods, req)|
    requires NoDeleteFault(env, |Listed(demos, pods, req)| - Want(demos, req))
    ensures var listed, d := Listed(demos, pods, req), |Listed(demos, pods, req)| - Want(demos, req);
      var w := Without(pods, KeysOf(listed[..d]));
      && Reconciled(demos, pods, req, env) == Outcome(None, w)
      && Listed(demos, w, req) == listed[d..]
      && (forall p | p in pods && !Matches(p, req.namespace, AppSelector(demos[req].name)) :: p in w)
  {
    var listed, d := Listed(demos, pods, req), |Listed(demos, pods, req)| - Want(demos, req);
    var victims, w := listed[..d], Without(pods, KeysOf(listed[..d]));
    ScaleDownTo(demos, pods, req, env, d);
    assert |victims| == d;
    assert DeleteFrom(w, victims, d, env) == Outcome(None, w);
    ListedAfterDelete(demos, pods, req, d);
  }

  /**
   * Scale-down that fails at Delete number `k`: the error is returned, only
   * the first `k` listed pods are gone, and no later Delete is attempted.
   */
  lemma ScaleDownStopsAt(demos: map<NamespacedName, Demo>, pods: seq<Pod>, req: NamespacedName, env: Environment, k: nat)
    requires UniqueKeys(pods) && Fetched(demos, req, env)
    requires 0 <= Want(demos, req) && k < |Listed(demos, pods, req)| - Want(demos, req)
    requires env.deleteFailsAt == Some(k)
    ensures var listed := Listed(demos, pods, req);
      var w := Without(pods, KeysOf(listed[..k]));
      && Reconciled(demos, pods, req, env) == Outcome(Some(Unavailable(DeleteCall)), w)
      && Listed(demos, w, req) == listed[k..]
  {
    ScaleDownTo(demos, pods, req, env, k);
    ListedAfterDelete(demos, pods, req, k);
  }

  /** The first `k` Deletes of the scale-down branch remove exactly the first `k` listed pods. */
  lemma ScaleDownTo(demos: map<NamespacedName, Demo>, pods: seq<Pod>, req: NamespacedName, env: Environment, k: nat)
    requires UniqueKeys(pods) && Fetched(demos, req, env)
    requires 0 <= Want(demos, req) < |Listed(demos, pods, req)|
    requires k <= |Listed(demos, pods, req)| - Want(demos, req)
    requires NoDeleteFault(env, k)
    ensures var listed, d := Listed(demos, pods, req), |Listed(demos, pods, req)| - Want(demos, req);
      Reconciled(demos, pods, req, env) == DeleteFrom(Without(pods, KeysOf(listed[..k])), listed[..d], k, env)
  {
    var listed, d := Listed(demos, pods, req), |Listed(demos, pods, req)| - Want(demos, req);
    var victims := listed[..d];
    ScaleDownBranch(demos, pods, req, env);
    UniqueSelected(pods, req.namespace, AppSelector(demos[req].name));
    assert UniqueKeys(victims);
    assert KeysOf(victims) <= KeysOf(pods) by {
      forall q | q in victims ensures q in pods {
        assert q in listed;
      }
    }
    DeleteFromPrefix(pods, victims, k, env);
    PrefixOfPrefix(listed, d, k);
  }

  /** Removing the first `k` listed pods leaves the rest of the listing, and every unlisted pod. */
  lemma ListedAfterDelete(demos: map<NamespacedName, Demo>, pods: seq<Pod>, req: NamespacedName, k: nat)
    requires UniqueKeys(pods) && req in demos && k <= |Listed(demos, pods, req)|
    ensures var listed := Listed(demos, pods, req);
      var w := Without(pods, KeysOf(listed[..k]));
      && Listed(demos, w, req) == listed[k..]
      && (forall p | p in pods && !Matches(p, req.namespace, AppSelector(demos[req].name)) :: p in w)
  {
    var ns, sel := req.namespace, AppSelector(demos[req].name);
    var listed := Listed(demos, pods, req);
    UniqueSelected(pods, ns, sel);
    SelectedWithout(pods, KeysOf(listed[..k]), ns, sel);
    WithoutPrefixKeys(listed, k);
    forall p | p in pods && !Matches(p, ns, sel) ensures Key(p) !in KeysOf(listed[..k]) {
      if Key(p) in KeysOf(listed[..k]) {
        var v :| v in listed[..k] && Key(v) == Key(p);
        assert v in listed;
        KeyIdentifies(pods, v, p);
      }
    }
  }

  /** Pods created for a Demo whose labels carry app=<demo name> are listed after the old ones. */
  lemma ListedAfterCreate(demos: map<NamespacedName, Demo>, pods: seq<Pod>, req: NamespacedName, env: Environment, k: nat)
    requires WellKeyed(demos) && req in demos
    requires LabelsMatch(demos[req].labels, AppSelector(demos[req].name))
    ensures Listed(demos, pods + CreatedPods(demos[req], 0, k, env), req)
         == Listed(demos, pods, req) + CreatedPods(demos[req], 0, k, env)
  {
    var ns, sel := req.namespace, AppSelector(demos[req].name);
    CreatedPodsShape(demos[req], 0, k, env);
    SelectedAppend(pods, CreatedPods(demos[req], 0, k, env), ns, sel);
    SelectedAll(CreatedPods(demos[req], 0, k, env), ns, sel);
  }

  /** A negative replica count panics on the slice before any pod is deleted. */
  lemma NegativeReplicasPanics(demos: map<NamespacedName, Demo>, pods: seq<Pod>, req: NamespacedName, env: Environment)
    requires Fetched(demos, req, env) && Want(demos, req) < 0
    ensures var have := |Listed(demos, pods, req)|;
      Reconciled(demos, pods, req, env) == Outcome(Some(SlicePanic(have - Want(demos, req), have)), pods)
  {
  }

  /**
   * At most one branch acts: when pods are missing the call only appends to
   * the store, otherwise it only removes from it.
   */
  lemma BranchesExclusive(demos: map<NamespacedName, Demo>, pods: seq<Pod>, req: NamespacedName, env: Environment)
    requires Fetched(demos, req, env)
    ensures var o := Reconciled(demos, pods, req, env);
      Want(demos, req) > |Listed(demos, pods, req)| ==> |o.pods| >= |pods| && o.pods[..|pods|] == pods
    ensures var o := Reconciled(demos, pods, req, env);
      Want(demos, req) <= |Listed(demos, pods, req)| ==> forall p | p in o.pods :: p in pods
  {
    var listed, want := Listed(demos, pods, req), Want(demos, req);
    if want > |listed| {
      CreateFromKeeps(pods, demos[req], 0, want - |listed|, env);
    } else if 0 <= want < |listed| {
      DeleteFromKeeps(pods, listed[..|listed| - want], 0, env);
    }
  }

  // Two calls.

  /**
   * Convergence: when a call succeeds and the Demo's own labels carry
   * app=<demo name>, the listed count equals the replica count afterwards,
   * and any later call that can read the store does nothing.
   */
  lemma Converges(demos: map<NamespacedName, Demo>, pods: seq<Pod>, req: NamespacedName, env: Environment, next: Environment)
    requires WellKeyed(demos) && UniqueKeys(pods) && req in demos
    requires LabelsMatch(demos[req].labels, AppSelector(demos[req].name))
    requires Reconciled(demos, pods, req, env).err.None?
    requires !next.getUnavailable && !next.listUnavailable
    ensures var o := Reconciled(demos, pods, req, env);
      && |Listed(demos, o.pods, req)| == Want(demos, req)
      && Reconciled(demos, o.pods, req, next) == Outcome(None, o.pods)
  {
    var o := Reconciled(demos, pods, req, env);
    CountAfterSuccess(demos, pods, req, env);
    InSyncIsNoOp(demos, o.pods, req, next);
  }

  /** A call that returns no error read the Demo and the pods, and the replica count is not negative. */
  lemma SuccessMeansFetched(demos: map<NamespacedName, Demo>, pods: seq<Pod>, req: NamespacedName, env: Environment)
    requires req in demos && Reconciled(demos, pods, req, env).err.None?
    ensures Fetched(demos, req, env) && Want(demos, req) >= 0
  {
  }

  /** A successful call leaves as many listed pods as the Demo asks for. */
  lemma CountAfterSuccess(demos: map<NamespacedName, Demo>, pods: seq<Pod>, req: NamespacedName, env: Environment)
    requires WellKeyed(demos) && UniqueKeys(pods) && req in demos
    requires LabelsMatch(demos[req].labels, AppSelector(demos[req].name))
    requires Reconciled(demos, pods, req, env).err.None?
    ensures |Listed(demos, Reconciled(demos, pods, req, env).pods, req)| == Want(demos, req)
  {
    SuccessMeansFetched(demos, pods, req, env);
    var listed, want := Listed(demos, pods, req), Want(demos, req);
    if want > |listed| {
      var n := want - |listed|;
      ScaleUpBranch(demos, pods, req, env);
      CreateFromDone(pods, demos[req], 0, n, env);
      ListedAfterCreate(demos, pods, req, env, n);
    } else if want < |listed| {
      var d := |listed| - want;
      ScaleDownBranch(demos, pods, req, env);
      DeleteFromDone(pods, listed[..d], 0, env);
      assert listed[..d][0..] == listed[..d];
      ListedAfterDelete(demos, pods, req, d);
    }
  }

  /**
   * Partial failure resumes: after the create loop stops at iteration `k`,
   * the next call lists `k` more pods than this one did, so its deficit is
   * `k` smaller.
   */
  lemma ResumesAfterPartialCreate(demos: map<NamespacedName, Demo>, pods: seq<Pod>, req: NamespacedName, env: Environment, k: nat)
    requires WellKeyed(demos) && Fetched(demos, req, env)
    requires LabelsMatch(demos[req].labels, AppSelector(demos[req].name))
    requires k < Want(demos, req) - |Listed(demos, pods, req)|
    requires NoCreateFault(env, 0, k) && FreshNames(pods, demos[req], 0, k, env)
    requires env.ownerRefFailsAt == Some(k) || env.createFailsAt == Some(k)
             || Key(OwnedPod(demos[req], k, env)) in KeysOf(pods + CreatedPods(demos[req], 0, k, env))
    ensures var o := Reconciled(demos, pods, req, env);
      && o.err.Some?
      && |Listed(demos, o.pods, req)| == |Listed(demos, pods, req)| + k
  {
    ScaleUpStopsAt(demos, pods, req, env, k);
    ListedAfterCreate(demos, pods, req, env, k);
  }

  /**
   * Without app=<demo name> among the Demo's labels, the pods a successful
   * scale-up creates are invisible to the selector: the next call lists the
   * same pods and sees the same deficit again.
   */
  lemma MislabelledPodsAreNotCounted(demos: map<NamespacedName, Demo>, pods: seq<Pod>, req: NamespacedName, env: Environment)
    requires Fetched(demos, req, env)
    requires !LabelsMatch(demos[req].labels, AppSelector(demos[req].name))
    requires Want(demos, req) > |Listed(demos, pods, req)|
    requires Reconciled(demos, pods, req, env).err.None?
    ensures var o := Reconciled(demos, pods, req, env);
      && |o.pods| == |pods| + Want(demos, req) - |Listed(demos, pods, req)|
      && Listed(demos, o.pods, req) == Listed(demos, pods, req)
  {
    var demo, ns, sel := demos[req], req.namespace, AppSelector(demos[req].name);
    var n := Want(demos, req) - |Listed(demos, pods, req)|;
    ScaleUpBranch(demos, pods, req, env);
    CreateFromDone(pods, demo, 0, n, env);
    SelectedAppend(pods, CreatedPods(demo, 0, n, env), ns, sel);
    CreatedPodsShape(demo, 0, n, env);
    SelectedNone(CreatedPods(demo, 0, n, env), ns, sel);
    assert Listed(demos, pods, req) + [] == Listed(demos, pods, req);
  }
}
