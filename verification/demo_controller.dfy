/**
 * The Demo reconciler: one call fetches a Demo, lists the pods labelled
 * app=<demo name> in the request's namespace, and then creates the missing
 * pods or deletes the first surplus pods in list order, stopping at the
 * first failing call.
 *
 * `Reconciled` is the specification of one call as a function of the store's
 * Demos and pods; `DemoReconciler.Reconcile` is the step-by-step procedure,
 * proved to leave the store exactly as `Reconciled` says.
 */
module DemoController {
  import opened Wrappers
  import opened CoreV1
  import opened DemoTypes
  import opened Store

  type HexDigit = c: char | '0' <= c <= '9' || 'a' <= c <= 'f' witness '0'

  /** The first eight characters of a random UUID's text form: lower-case hex digits. */
  type Suffix = s: seq<HexDigit> | |s| == 8 witness "00000000"

  /**
   * What the world outside the controller decides during one call: whether
   * Get or List is unavailable, the first iteration (if any) at which
   * SetControllerReference, Create or Delete fails, and the UUID prefix drawn
   * at each creation. The code stops at the first failure, so the first
   * failing iteration of each call is all that matters.
   */
  datatype Environment = Environment(
    getUnavailable: bool,
    listUnavailable: bool,
    ownerRefFailsAt: Option<nat>,
    createFailsAt: Option<nat>,
    deleteFailsAt: Option<nat>,
    suffix: nat -> Suffix)

  /** The requeue request returned with every outcome. */
  datatype CtrlResult = CtrlResult(requeue: bool, requeueAfter: nat)

  const NoRequeue := CtrlResult(false, 0)

  /** The error and the pods left in the store after one call. */
  datatype Outcome = Outcome(err: Option<Error>, pods: seq<Pod>)

  function AppSelector(name: string): map<string, string> {
    map["app" := name]
  }

  /** A pod is listed for a Demo exactly when it is in the namespace and its `app` label is the Demo's name. */
  lemma AppSelectorMatches(p: Pod, namespace: string, name: string)
    ensures Matches(p, namespace, AppSelector(name))
        <==> p.namespace == namespace && "app" in p.labels && p.labels["app"] == name
  {
    assert "app" in AppSelector(name);
  }

  /** A missing object is not an error. */
  function IgnoreNotFound(e: Error): (r: Option<Error>)
    ensures r.None? <==> e.NotFound?
    ensures r.Some? ==> r.value == e
  {
    if e.NotFound? then None else Some(e)
  }

  /** The pod built for a Demo before its owner is set. */
  function NewPod(demo: Demo, suffix: Suffix): Pod {
    Pod(demo.name + "-" + suffix, demo.namespace, demo.labels, None, demo.spec.template.spec)
  }

  function ControllerRef(owner: Demo): OwnerRef {
    OwnerRef("Demo", owner.name)
  }

  /** Makes `owner` the controller of `pod`, unless the environment rejects it. */
  function SetControllerReference(owner: Demo, pod: Pod, rejected: bool): (r: Result<Pod>)
    ensures r.Ok? <==> !rejected
    ensures r.Ok? ==> r.value == pod.(owner := Some(ControllerRef(owner)))
    ensures r.Err? ==> r.error == OwnerRefRejected
  {
    if rejected then Err(OwnerRefRejected) else Ok(pod.(owner := Some(ControllerRef(owner))))
  }

  /**
   * The pod created at iteration `i` of the create loop: the new pod once
   * SetControllerReference has accepted it.
   */
  function OwnedPod(demo: Demo, i: nat, env: Environment): (r: Pod)
    ensures SetControllerReference(demo, NewPod(demo, env.suffix(i)), false) == Ok(r)
  {
    NewPod(demo, env.suffix(i)).(owner := Some(ControllerRef(demo)))
  }

  /** The pods created by iterations `from` up to `to` of the create loop, in order. */
  function CreatedPods(demo: Demo, from: nat, to: nat, env: Environment): (r: seq<Pod>)
    ensures |r| == if from <= to then to - from else 0
    decreases if from <= to then to - from else 0
  {
    if to <= from then []
    else [OwnedPod(demo, from, env)] + CreatedPods(demo, from + 1, to, env)
  }

  /**
   * Every created pod lives in the Demo's namespace, carries the Demo's
   * labels and template spec, is controlled by the Demo and is named
   * <demo name>-<8 characters>.
   */
  lemma {:induction false} CreatedPodsShape(demo: Demo, from: nat, to: nat, env: Environment)
    ensures forall q | q in CreatedPods(demo, from, to, env) :: (
              && q.namespace == demo.namespace
              && q.labels == demo.labels
              && q.spec == demo.spec.template.spec
              && q.owner == Some(ControllerRef(demo))
              && |q.name| == |demo.name| + 9
              && q.name[..|demo.name| + 1] == demo.name + "-")
    decreases if from <= to then to - from else 0
  {
    if from < to {
      CreatedPodsShape(demo, from + 1, to, env);
      var p := OwnedPod(demo, from, env);
      assert p.name[..|demo.name| + 1] == demo.name + "-";
    }
  }

  /**
   * Iterations `i` up to `n` of the create loop, starting from the store `pods`.
   * It fails only with a rejected owner reference, an unavailable Create or a
   * name that is already taken.
   */
  function CreateFrom(pods: seq<Pod>, demo: Demo, i: nat, n: nat, env: Environment): (r: Outcome)
    ensures r.err.Some? ==> r.err.value == OwnerRefRejected || r.err.value == Unavailable(CreateCall) || r.err.value.AlreadyExists?
    decreases n - i
  {
    if i >= n then Outcome(None, pods)
    else if env.ownerRefFailsAt == Some(i) then Outcome(Some(OwnerRefRejected), pods)
    else if env.createFailsAt == Some(i) then Outcome(Some(Unavailable(CreateCall)), pods)
    else
      var pod := OwnedPod(demo, i, env);
      if Key(pod) in KeysOf(pods) then Outcome(Some(AlreadyExists(Key(pod))), pods)
      else CreateFrom(pods + [pod], demo, i + 1, n, env)
  }

  /**
   * Iterations `i` onwards of the delete loop over `victims`, starting from the
   * store `pods`. The loop never adds a pod; when it reports no error, each of
   * the remaining iterations has removed at least one.
   */
  function DeleteFrom(pods: seq<Pod>, victims: seq<Pod>, i: nat, env: Environment): (r: Outcome)
    ensures |r.pods| <= |pods|
    ensures r.err.None? && i <= |victims| ==> |r.pods| + (|victims| - i) <= |pods|
    decreases |victims| - i
  {
    if i >= |victims| then Outcome(None, pods)
    else if env.deleteFailsAt == Some(i) then Outcome(Some(Unavailable(DeleteCall)), pods)
    else if Key(victims[i]) !in KeysOf(pods) then Outcome(Some(NotFound(Key(victims[i]))), pods)
    else
      WithoutPresent(pods, Key(victims[i]));
      DeleteFrom(Without(pods, {Key(victims[i])}), victims, i + 1, env)
  }

  /**
   * One reconcile call for `req`: the error it returns and the pods it leaves.
   */
  function Reconciled(demos: map<NamespacedName, Demo>, pods: seq<Pod>, req: NamespacedName, env: Environment): (r: Outcome)
    ensures env.getUnavailable || req !in demos || env.listUnavailable ==> r.pods == pods
    ensures r.err.None? ==> !env.getUnavailable && (req in demos ==> !env.listUnavailable)
  {
    if env.getUnavailable then Outcome(Some(Unavailable(GetCall)), pods)
    else if req !in demos then Outcome(IgnoreNotFound(NotFound(req)), pods)
    else
      var demo := demos[req];
      if env.listUnavailable then Outcome(Some(Unavailable(ListCall)), pods)
      else Scaled(demo, Selected(pods, req.namespace, AppSelector(demo.name)), pods, env)
  }

  /**
   * The scaling part of a call, once `listed` has been fetched. The create
   * branch and the delete branch both compare against the count listed at
   * the start, so at most one of them acts.
   */
  function Scaled(demo: Demo, listed: seq<Pod>, pods: seq<Pod>, env: Environment): (r: Outcome)
    ensures demo.spec.replicas as int == |listed| ==> r == Outcome(None, pods)
    ensures demo.spec.replicas as int < |listed| ==> |r.pods| <= |pods|
    ensures demo.spec.replicas < 0 ==> r == Outcome(Some(SlicePanic(|listed| - demo.spec.replicas as int, |listed|)), pods)
  {
    var want, have := demo.spec.replicas as int, |listed|;
    var up := if want > have then CreateFrom(pods, demo, 0, want - have, env) else Outcome(None, pods);
    if up.err.Some? then up
    else if want < have then
      if have - want > have then Outcome(Some(SlicePanic(have - want, have)), up.pods)
      else DeleteFrom(up.pods, listed[..have - want], 0, env)
    else up
  }

  class DemoReconciler {
    const client: Client

    constructor (client: Client)
      ensures this.client == client
    {
      this.client := client;
    }

    /**
     * Drives the number of pods labelled app=<demo name> towards the Demo's
     * replica count. Never asks for a requeue; every failure is returned.
     */
    method Reconcile(req: NamespacedName, env: Environment) returns (res: CtrlResult, err: Option<Error>)
      requires client.Valid()
      modifies client
      ensures client.Valid() && client.demos == old(client.demos)
      ensures res == NoRequeue
      ensures Outcome(err, client.pods) == Reconciled(old(client.demos), old(client.pods), req, env)
    {
      res := NoRequeue;
      var got := client.Get(req, env.getUnavailable);
      if got.Err? {
        err := IgnoreNotFound(got.error);
        return;
      }
      var demo := got.value;

      var listed := client.List(req.namespace, AppSelector(demo.name), env.listUnavailable);
      if listed.Err? {
        err := Some(listed.error);
        return;
      }
      var items := listed.value;
      var currentPodCount := |items|;
      var replicas := demo.spec.replicas as int;
      assert Reconciled(old(client.demos), old(client.pods), req, env) == Scaled(demo, items, old(client.pods), env);

      if replicas > currentPodCount {
        err := CreatePods(demo, replicas - currentPodCount, env);
        if err.Some? {
          return;
        }
      }

      if replicas < currentPodCount {
        if currentPodCount - replicas > |items| {
          // Go panics here: the slice bound exceeds the list.
          err := Some(SlicePanic(currentPodCount - replicas, |items|));
          return;
        }
        var deletePods := items[..currentPodCount - replicas];
        err := DeletePods(deletePods, env);
        if err.Some? {
          return;
        }
      }
      err := None;
    }

    /** The create loop of `Reconcile`: `n` times, build a pod, own it and create it. */
    method CreatePods(demo: Demo, n: nat, env: Environment) returns (err: Option<Error>)
      requires client.Valid()
      modifies client
      ensures client.Valid() && client.demos == old(client.demos)
      ensures Outcome(err, client.pods) == CreateFrom(old(client.pods), demo, 0, n, env)
    {
      var i := 0;
      while i < n
        invariant 0 <= i <= n
        invariant client.Valid() && client.demos == old(client.demos)
        invariant CreateFrom(client.pods, demo, i, n, env) == CreateFrom(old(client.pods), demo, 0, n, env)
      {
        var pod := NewPod(demo, env.suffix(i));
        var owned := SetControllerReference(demo, pod, env.ownerRefFailsAt == Some(i));
        if owned.Err? {
          return Some(owned.error);
        }
        err := client.Create(owned.value, env.createFailsAt == Some(i));
        if err.Some? {
          return;
        }
        i := i + 1;
      }
      err := None;
    }

    /** The delete loop of `Reconcile`: delete each pod of `deletePods` in order. */
    method DeletePods(deletePods: seq<Pod>, env: Environment) returns (err: Option<Error>)
      requires client.Valid()
      modifies client
      ensures client.Valid() && client.demos == old(client.demos)
      ensures Outcome(err, client.pods) == DeleteFrom(old(client.pods), deletePods, 0, env)
    {
      for i := 0 to |deletePods|
        invariant client.Valid() && client.demos == old(client.demos)
        invariant DeleteFrom(client.pods, deletePods, i, env) == DeleteFrom(old(client.pods), deletePods, 0, env)
      {
        err := client.Delete(deletePods[i], env.deleteFailsAt == Some(i));
        if err.Some? {
          return;
        }
      }
      err := None;
    }
  }
}
