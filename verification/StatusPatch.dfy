/** The patch function that the reconciler hands to the write buffer. */
module StatusPatch {
  import opened Api

  /** The state that the reconciler wants on record, apart from Reconciled. */
  datatype Wish = Wish(deleted: bool, ready: Option<Time>)

  function Deref(t: Option<Time>): Time {
    if t.Some? then t.value else 0
  }

  function Wanted(w: Wish): ResourceState {
    ResourceState(true, w.ready, w.deleted)
  }

  /** The wish needs no patch. */
  predicate OnRecord(w: Wish, rs: ResourceState) {
    rs.deleted == w.deleted && rs.reconciled && Deref(rs.ready) == Deref(w.ready)
  }

  function PatchResourceState(w: Wish, rs: ResourceState): Option<ResourceState> {
    if OnRecord(w, rs) then None else Some(Wanted(w))
  }
}
