/** The custom resources that the controllers share: compositions with their Current and Previous
    synthesis, and resource slices. */
module Api {

  datatype Option<+T> = None | Some(value: T)

  type Time = nat

  /** UUIDs are drawn from a counter; 0 stands for the empty string. */
  type Uuid = nat
  const NO_UUID: Uuid := 0

  /** Names of resource slices are generated by the server, so they are numbered in creation order. */
  type SliceName = nat

  datatype Result = Result(message: string, severity: string)

  datatype InputRevision = InputRevision(
    key: string, resourceVersion: string, revision: Option<int>, synthesizerGeneration: Option<int>)

  datatype Ref = Ref(key: string, defer: bool)

  datatype Synthesizer = Synthesizer(generation: int, refs: seq<Ref>)

  datatype Synthesis = Synthesis(
    uuid: Uuid,
    observedGeneration: nat,
    observedSynthesizerGeneration: int,
    initialized: Option<Time>,
    podCreation: Option<Time>,
    synthesized: Option<Time>,
    reconciled: Option<Time>,
    ready: Option<Time>,
    attempts: nat,
    slices: seq<SliceName>,
    results: seq<Result>,
    inputRevisions: seq<InputRevision>,
    deferred: bool)

  datatype Composition = Composition(
    generation: nat,
    deleting: bool,
    finalizer: bool,
    bindings: seq<string>,
    ignoreSideEffects: bool,
    orphan: bool,
    current: Option<Synthesis>,
    previous: Option<Synthesis>,
    pending: Option<Time>,
    inputRevisions: seq<InputRevision>)

  /** A synthesis failed when its function reported at least one error. */
  predicate Failed(s: Synthesis) {
    HasError(s.results)
  }

  predicate HasError(results: seq<Result>) {
    exists i :: 0 <= i < |results| && results[i].severity == "error"
  }

  predicate InProgress(s: Synthesis) {
    s.synthesized.None?
  }

  predicate Succeeded(s: Synthesis) {
    s.synthesized.Some? && !Failed(s)
  }

  /** The recorded state of one resource of a slice. */
  datatype ResourceState = ResourceState(reconciled: bool, ready: Option<Time>, deleted: bool)

  const BLANK_STATE := ResourceState(false, None, false)

  /** What identifies a resource: for a Patch this is the object that it patches. */
  datatype ResourceRef = ResourceRef(name: string, namespace: string, kind: string, group: string)

  /** A manifest is an opaque document: its reference, its encoded length and its flags. `decodes`
      tells whether the stored document can be parsed back. */
  datatype Manifest = Manifest(ref: ResourceRef, isPatch: bool, bytes: nat, deleted: bool, decodes: bool)

  datatype SliceSpec = SliceSpec(generation: nat, uuid: Uuid, attempt: nat, resources: seq<Manifest>)

  /** One manifest of a slice. */
  datatype ManifestRef = ManifestRef(slice: SliceName, index: nat)

  /** A slice as a reader sees it. */
  datatype ResourceSlice = ResourceSlice(spec: SliceSpec, deleting: bool, status: seq<ResourceState>)

  /** The status list is either not allocated yet or parallel to the manifests. */
  predicate Aligned(s: ResourceSlice) {
    s.status == [] || |s.status| == |s.spec.resources|
  }
}
