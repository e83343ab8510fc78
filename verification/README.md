# Demo replica reconciler — a Dafny model

The repository is a Kubernetes operator for one custom resource, `Demo`.
A `Demo` has a replica count and a pod template. Its controller,
`DemoReconciler.Reconcile`, keeps the number of pods labelled
`app=<demo name>` equal to that count. One call does the following:

1. It fetches the Demo. A missing Demo is a success; any other failure is returned.
2. It lists the Demo's namespace for pods whose `app` label is the Demo's name.
3. If pods are missing, it creates the deficit one pod at a time. Each pod is
   named `<demo name>-<first 8 characters of a UUID>`. It carries the Demo's
   namespace, labels and template spec, and the Demo becomes its controller.
4. If there are too many pods, it deletes the first surplus pods in list order.
5. It stops at the first failing call and returns that error.
6. It never asks for a requeue.

The model has six modules:

- `Wrappers`: `Option`.
- `CoreV1`: the pod fields the controller touches.
- `DemoTypes`: the `Demo` resource with its `int32` replica count.
- `Store`: the object store behind the controller-runtime client. The
  `Client` class holds the Demos by namespace/name and the pods in list
  order. `Get` and `List` read that state; `Create` and `Delete` update it
  in place.
- `DemoController`: the `DemoReconciler` class and its `Reconcile` method, a
  step-by-step procedure. Its create loop (a `while` loop) and its delete loop
  (a `for` loop) are the methods `CreatePods` and `DeletePods` of the same
  class. Around them are the pure functions they are proved against:
  - `CreateFrom` and `DeleteFrom` say what the two loops do from a given
    iteration on.
  - `Reconciled` is the whole call. It fetches and lists, then hands the
    listing to `Scaled`.
- `ReconcileProperties`: lemmas about `Reconciled`, covering both a single
  call and two calls in a row.

Everything outside the controller's control is a parameter, the
`Environment`:

- Whether Get and List are unavailable.
- The first iteration, if any, at which SetControllerReference, Create or
  Delete fails.
- The UUID prefix drawn at each creation, as a function from the iteration
  number to eight lower-case hexadecimal digits.

The code stops at its first failure, so the first failing iteration of each
kind is all that can matter.

Two store failures are returned as errors, not ignored:

- Deleting a pod that is already gone returns the NotFound error of
  `Delete` (internal/controller/demo_controller.go:111-115).
- A Create whose name is already taken returns AlreadyExists
  (internal/controller/demo_controller.go:97-101). This includes a name drawn
  twice within the same call.

The controller converges only when the Demo's own labels carry
`app=<demo name>`. It copies `demo.Labels` onto each new pod (line 84) but
counts pods by the selector `app=<demo name>` (line 65). Otherwise the new
pods are never counted, and every later call creates the deficit again.

## Model

| member | source | states |
|---|---|---|
| DemoController.DemoReconciler.Reconcile | internal/controller/demo_controller.go:52-120 | Keeps the store well formed and leaves the Demos unchanged. Always returns an empty result, with no requeue. The error it returns and the pods it leaves are exactly those of `Reconciled` on the store it started from. |
| DemoController.DemoReconciler.CreatePods | internal/controller/demo_controller.go:77-102 | The create loop. Keeps the store well formed. Its error and the pods it leaves are exactly those of `CreateFrom` from iteration 0. The loop invariant ties each iteration to `CreateFrom`. |
| DemoController.DemoReconciler.DeletePods | internal/controller/demo_controller.go:108-116 | The delete loop. Keeps the store well formed. Its error and the pods it leaves are exactly those of `DeleteFrom` from iteration 0. The loop invariant ties each iteration to `DeleteFrom`. |
| DemoController.Reconciled | internal/controller/demo_controller.go:52-120 | The whole call as a function of the store: fetch, list, then `Scaled`. If Get fails, the Demo is missing or List fails, the pods are unchanged. A call without error had Get succeed, and List too when the Demo exists. |
| DemoController.Scaled | internal/controller/demo_controller.go:70-117 | The create-or-delete part of the call, given the listing. When the count already matches, nothing happens and there is no error. With a surplus, the store never grows. A negative replica count fails at the slice and leaves the store unchanged. |
| DemoController.CreateFrom | internal/controller/demo_controller.go:77-102 | Iterations `i` up to `n` of the create loop, stopping at the first failure. It fails only with a rejected owner reference, an unavailable Create or AlreadyExists. Its effect on the store is given by `CreateFromPrefix`, `CreateFromDone` and `CreateFromKeeps`. |
| DemoController.DeleteFrom | internal/controller/demo_controller.go:108-116 | Iterations `i` onwards of the delete loop, stopping at the first failure. The store never grows. Without an error, every remaining iteration removed at least one pod. |
| DemoController.NewPod | internal/controller/demo_controller.go:80-87 | Builds the pod of lines 80-87: `<demo name>-<suffix>`, the Demo's namespace, labels and template spec, no owner yet. Its shape is stated by `CreatedPodsShape` and `NameDeterminesSuffix`. |
| DemoController.OwnedPod | internal/controller/demo_controller.go:80-90 | The pod created at iteration `i` is exactly what `SetControllerReference` returns for the new pod when it accepts it. |
| DemoController.AppSelectorMatches | internal/controller/demo_controller.go:65 | A pod matches the List call's selector exactly when it is in the namespace and its `app` label is the Demo's name. |
| Store.LabelsMatch | internal/controller/demo_controller.go:65 | The `MatchingLabels` selector: every selector key is among the labels with the same value. Its meaning for the Demo's selector is stated by `AppSelectorMatches`. |
| Store.Matches | internal/controller/demo_controller.go:65 | `InNamespace` together with `MatchingLabels`. Its meaning for the Demo's selector is stated by `AppSelectorMatches`. |
| Store.WithoutPresent | internal/controller/demo_controller.go:111 | Deleting a stored key removes at least one pod. |
| DemoController.IgnoreNotFound | internal/controller/demo_controller.go:60 | A Get error becomes "no error" exactly when it is NotFound. Every other error passes through unchanged. |
| DemoController.SetControllerReference | internal/controller/demo_controller.go:90-94 | Succeeds exactly when the environment does not reject it. On success the pod is unchanged except that its controller is the Demo. A rejection is returned as the error. |
| DemoController.CreatedPods | internal/controller/demo_controller.go:77-87 | Iterations `from` up to `to` of the create loop build one pod each. |
| DemoController.CreatedPodsShape | internal/controller/demo_controller.go:80-90 | Every created pod: is in the Demo's namespace; carries the Demo's labels and its template spec; is controlled by the Demo; is named `<demo name>-` followed by 8 characters. |
| Store.Selected | internal/controller/demo_controller.go:64-65 | The listing has a pod exactly when the store has it and the pod matches the namespace and the `app` selector. It is never longer than the store. |
| Store.Without | internal/controller/demo_controller.go:111 | Removal by key keeps exactly the pods whose key is not removed. |
| Store.Client.Get | internal/controller/demo_controller.go:56-57 | Succeeds exactly when the call is available and the key is stored, and then returns the stored Demo. Otherwise it returns Unavailable or NotFound. |
| Store.Client.List | internal/controller/demo_controller.go:64-69 | Succeeds exactly when the call is available, and then returns `Selected` of the store. Otherwise it returns Unavailable. |
| Store.Client.Create | internal/controller/demo_controller.go:97-101 | Succeeds exactly when the call is available and the key is free. It then appends the pod. Otherwise it returns Unavailable or AlreadyExists and leaves the store unchanged. Keys stay unique. |
| Store.Client.Delete | internal/controller/demo_controller.go:111-115 | Succeeds exactly when the call is available and the key is stored. It then removes that key. Otherwise it returns Unavailable or NotFound and leaves the store unchanged. Keys stay unique. |
| Store.UniqueSelected | internal/controller/demo_controller.go:65 | Listing a store with unique keys gives unique keys. |
| Store.UniqueWithout | internal/controller/demo_controller.go:111 | Deleting from a store with unique keys keeps them unique. |
| Store.SelectedAppend | internal/controller/demo_controller.go:65 | Listing distributes over appending. In the model, the store lists pods in creation order, so pods created later are listed after the older ones. |
| Store.SelectedWithout | internal/controller/demo_controller.go:65 | Listing and deletion by key commute. |
| Store.WithoutWithout | internal/controller/demo_controller.go:109-116 | Two deletions in sequence remove the union of their keys. |
| Store.WithoutPrefixKeys | internal/controller/demo_controller.go:108 | With unique keys, removing the keys of the first `d` pods leaves exactly the rest, in order. |
| ReconcileProperties.CreateFromPrefix | internal/controller/demo_controller.go:77-102 | While nothing fails and no name collides, iterations `i` up to `k` append exactly their pods, in order. |
| ReconcileProperties.CreateFromDone | internal/controller/demo_controller.go:77-102 | A create loop that reports no error has appended every pod it built. |
| ReconcileProperties.CreateFromKeeps | internal/controller/demo_controller.go:77-102 | The create loop only appends. The pods it started with stay in place. |
| ReconcileProperties.NameDeterminesSuffix | internal/controller/demo_controller.go:82 | Two created pods with the same name were given the same UUID prefix. |
| ReconcileProperties.DeleteFromPrefix | internal/controller/demo_controller.go:108-116 | While no Delete fails, iterations 0 up to `k` remove exactly the first `k` victims. Each victim is still present when its turn comes. |
| ReconcileProperties.DeleteFromDone | internal/controller/demo_controller.go:109-116 | A delete loop that reports no error has removed every remaining victim. |
| ReconcileProperties.DeleteFromKeeps | internal/controller/demo_controller.go:109-116 | The delete loop only removes. Every pod it leaves was there before. |
| ReconcileProperties.ScaleUpBranch | internal/controller/demo_controller.go:75-106 | With pods missing, the call is exactly the create loop over the deficit. The delete branch never acts after it. |
| ReconcileProperties.ScaleDownBranch | internal/controller/demo_controller.go:75-117 | With surplus pods and a count that is not negative, the call is exactly the delete loop over the first `count - replicas` listed pods. |
| ReconcileProperties.MissingDemoIsNoOp | internal/controller/demo_controller.go:57-61 | A missing Demo gives success and leaves the store unchanged. |
| ReconcileProperties.GetErrorIsReturned | internal/controller/demo_controller.go:57-61 | Any other Get failure is returned and the store is unchanged. |
| ReconcileProperties.ListErrorIsReturned | internal/controller/demo_controller.go:64-69 | A List failure is returned. No pod is created or deleted. |
| ReconcileProperties.InSyncIsNoOp | internal/controller/demo_controller.go:70-119 | When the listed count equals the replica count, the call succeeds and changes nothing. |
| ReconcileProperties.ScaleUpExact | internal/controller/demo_controller.go:75-103 | With no failure and fresh names, exactly `replicas - count` pods are appended. Each has the Demo's namespace, labels and template spec, is controlled by the Demo and is named `<demo name>-` plus 8 characters. The existing pods keep their places. |
| ReconcileProperties.ScaleUpStopsAt | internal/controller/demo_controller.go:77-101 | If iteration `k` is the first to fail, the call returns that iteration's error: a rejected owner reference, an unavailable Create or AlreadyExists. AlreadyExists covers a name taken before the call or by a pod created earlier in it. Exactly the `k` earlier pods were appended. |
| ReconcileProperties.ScaleDownExact | internal/controller/demo_controller.go:106-117 | With no failing Delete, exactly the first `count - replicas` listed pods are removed. The listing afterwards is the rest of the old listing, in the same order. No unlisted pod is touched. |
| ReconcileProperties.ScaleDownStopsAt | internal/controller/demo_controller.go:108-115 | If Delete number `k` fails, the error is returned. Exactly the first `k` listed pods are gone, and the listing is the rest. |
| ReconcileProperties.ScaleDownTo | internal/controller/demo_controller.go:108-116 | After the first `k` Deletes succeed, the call continues as the delete loop from iteration `k`. At that point exactly the first `k` listed pods have been removed. |
| ReconcileProperties.ListedAfterDelete | internal/controller/demo_controller.go:65-108 | Removing the first `k` listed pods leaves the rest of the listing, in order, and every unlisted pod. |
| ReconcileProperties.ListedAfterCreate | internal/controller/demo_controller.go:65-87 | When the Demo's labels carry `app=<demo name>`, the created pods are listed after the old ones. |
| ReconcileProperties.NegativeReplicasPanics | internal/controller/demo_controller.go:106-108 | A negative replica count reaches the slice with a bound past the listing. The call fails there and deletes nothing. |
| ReconcileProperties.BranchesExclusive | internal/controller/demo_controller.go:70-117 | At most one branch acts. With pods missing the call only appends; otherwise it only removes. |
| ReconcileProperties.SuccessMeansFetched | internal/controller/demo_controller.go:57-108 | A call that returns no error fetched the Demo and listed the pods, and the replica count is not negative. |
| ReconcileProperties.CountAfterSuccess | internal/controller/demo_controller.go:70-119 | After a call that succeeds, and when the Demo's labels carry `app=<demo name>`, the listed count equals the replica count. |
| ReconcileProperties.Converges | internal/controller/demo_controller.go:52-120 | After a call that succeeds, and when the Demo's labels carry `app=<demo name>`, any next call that can read the store succeeds and changes nothing. |
| ReconcileProperties.ResumesAfterPartialCreate | internal/controller/demo_controller.go:77-101 | If the create loop fails at iteration `k`, whether the owner reference is rejected, Create is unavailable or the name is taken, the error is returned. The next call lists `k` more pods, so its deficit is `k` smaller. |
| ReconcileProperties.MislabelledPodsAreNotCounted | internal/controller/demo_controller.go:65-87 | When the Demo's labels lack `app=<demo name>`, a successful scale-up adds the whole deficit, but the listing is unchanged. The next call sees the same deficit again. |

## Left out

- Logging (`log.FromContext`, `logger.Info`, `logger.Error`). It has no effect on the outcome.
- `uuid.New()`. The model takes the UUID prefix at each iteration from the
  environment. The code does not promise distinct names. The lemmas that
  need distinct names say so in their preconditions (`FreshNames`).
- The internals of `ctrl.SetControllerReference` and of `runtime.Scheme`. The
  model keeps only success or failure, and an owner reference of kind
  `Demo` and the Demo's name. The API version, UID and controller flags are
  not modelled.
- The real API server behind `client.Client`. The store is a map of Demos and
  a sequence of pods in list order. All failures other than NotFound and
  AlreadyExists are one `Unavailable(call)` error.
- Store.SelectedAppend, ReconcileProperties.ListedAfterCreate,
  ReconcileProperties.ListedAfterDelete, ReconcileProperties.ScaleDownExact,
  ReconcileProperties.ScaleDownStopsAt, ReconcileProperties.CountAfterSuccess
  and ReconcileProperties.Converges hold of the modelled store, which is
  simpler than the real one in the first three ways below.
  ReconcileProperties.ScaleUpStopsAt (its Unavailable Create case),
  ReconcileProperties.ScaleDownStopsAt and
  ReconcileProperties.ResumesAfterPartialCreate rely on the fourth:
  - It lists pods in a fixed order, the order they were created in. The API
    server lists by namespace/name, and the manager's cache lists in no fixed
    order. So "the first surplus pods" and "the rest of the listing in the same
    order" are stated for the modelled order only.
  - Every read sees every earlier write at once. The manager's default client
    reads Get and List from an informer cache that can lag behind the writes.
  - `Delete` removes a pod at once. A real pod Delete only sets a deletion
    timestamp, and the pod stays listed under the selector for its grace
    period. A later call can then count it and delete it again.
  - A `Create` or `Delete` that returns an error has no effect on the store.
    The API server does not promise this: a server timeout or a client
    deadline can end the call after the write was committed. On a real
    cluster the next call can then find one more pod created, or one more
    pod gone, than these lemmas state.
- Go slicing up to the capacity of the slice. At
  internal/controller/demo_controller.go:108 a negative replica count gives a
  slice bound past the length of `podList.Items`. The model treats this as a
  failure (`SlicePanic`). Go only panics when the bound also exceeds the
  capacity, which depends on how the list was decoded.
- Aliasing of the label map. Go gives each new pod the Demo's own
  `Labels` map. The model copies the value, which is the same as long as
  nothing mutates the map.
- Context cancellation, concurrent calls for the same key, watches and
  resync. The code does not implement any of these.
- `SetupWithManager` (internal/controller/demo_controller.go:123-127) and
  `init` with its scheme registration (api/v1/demo_types.go:61-63). These are
  manager and scheme wiring.
- The RBAC markers, the JSON tags, `DemoStatus`, `DemoList` and `TypeMeta`.
  They are declarations with no behaviour.
- The contents of `PodSpec`. It is copied from the template verbatim and is
  never read.
