/**
 The panel that asks the server to look up an effect whose outcome is unknown.

 A tab keeps the id of a request it may have sent in its session storage, so that a lost reply, a
 timeout or a reload makes it repeat that request instead of inventing another one. This module
 holds the panel itself: its storage, its refs, the React state and the two request hooks it uses.
 */
module Reconciliation {
  import opened Identity
  import opened Wrappers

  /** What session storage holds under the panel's key. */
  datatype Slot = Empty | Saved(id: Id) | Malformed

  /** The public summary of one accepted request; `running` stands for QUEUED or RUNNING. */
  datatype Record = Record(requestId: Id, running: bool)

  /** React state that has been set, whether or not it has been rendered yet. */
  datatype View = View(pendingId: Option<Id>, initialized: bool, storageError: bool)

  /** What the last committed render captured; event handlers only see these values. */
  datatype Shown = Shown(pendingId: Option<Id>, initialized: bool, storageError: bool, busy: bool,
                         queryPending: bool, recordRunning: bool)

  /** The write hook: the request in flight, and whether a failure still blocks the next one. */
  datatype Mutation = Mutation(active: Option<Id>, blocked: bool)

  datatype Phase = Idle | Confirming | ReadingLatest | Loaded | Failed

  /** The read hook: the pending id its loader was built with, its progress and its data. */
  datatype Query = Query(asked: Option<Id>, phase: Phase, record: Option<Record>) {
    predicate Settled() {
      phase == Loaded || phase == Failed
    }
  }

  datatype Client = Client(slot: Slot, pending: Option<Id>, view: View, shown: Shown,
                           mutation: Mutation, query: Query)

  // ---- What each callback does ------------------------------------------------------------

  const UNMOUNTED := Shown(None, false, false, false, true, false)

  /** A freshly mounted panel over whatever an earlier one left in storage. */
  function Mounted(slot: Slot): Client {
    Client(slot, None, View(None, false, false), UNMOUNTED, Mutation(None, false), Query(None, Idle, None))
  }

  function Restored(c: Client, faulty: bool): Client {
    if faulty || c.slot.Malformed? then c.(view := c.view.(initialized := true, storageError := true))
    else
      var value := if c.slot.Saved? then Some(c.slot.id) else None;
      c.(pending := value, view := View(value, true, false))
  }

  function Acknowledged(c: Client, requestId: Id, faulty: bool): Client {
    if c.pending != Some(requestId) then c
    else if faulty then c.(view := c.view.(storageError := true))
    else c.(slot := Empty, pending := None, view := c.view.(pendingId := None, storageError := false))
  }

  /** The write hook's acknowledge: a confirmed fact lifts the block, unless a write is running. */
  function Unblocked(m: Mutation): Mutation {
    if m.active.Some? then m else m.(blocked := false)
  }

  /** The write hook's submit: refused while a write runs or a failure blocks. */
  function Submitted(m: Mutation, requestId: Id): Mutation {
    if m.active.Some? || m.blocked then m else Mutation(Some(requestId), m.blocked)
  }

  /** The read hook's refresh: the running read is dropped, a new one starts with the next commit. */
  function Refreshed(c: Client): Client {
    c.(query := c.query.(phase := Idle))
  }

  predicate StartAllowed(s: Shown) {
    !s.busy && !s.queryPending && !s.recordRunning && !s.storageError && s.initialized
  }

  /** The id a click on start settles on; None when the key or the storage write fails. */
  function StartId(c: Client, minted: Option<Id>, faulty: bool): Option<Id> {
    if c.pending.Some? then c.pending
    else if faulty then None
    else minted
  }

  function Started(c: Client, minted: Option<Id>, faulty: bool): Client {
    if !StartAllowed(c.shown) then c
    else
      match StartId(c, minted, faulty)
      case None => c.(view := c.view.(storageError := true))
      case Some(id) =>
        var saved := if c.pending.Some? then c
                     else c.(slot := Saved(id), pending := Some(id), view := c.view.(pendingId := Some(id)));
        saved.(mutation := Submitted(Unblocked(saved.mutation), id))
  }

  /** The id a click actually sends: only a write that was free to start reaches the network. */
  function Sent(c: Client, minted: Option<Id>, faulty: bool): Option<Id> {
    if StartAllowed(c.shown) && c.mutation.active.None? then StartId(c, minted, faulty) else None
  }

  function PostSucceeded(c: Client, faulty: bool): Client
    requires c.mutation.active.Some?
  {
    var idle := c.(mutation := c.mutation.(active := None));
    Refreshed(Acknowledged(idle, c.mutation.active.value, faulty))
  }

  function PostFailed(c: Client): Client {
    Refreshed(c.(mutation := Mutation(None, true)))
  }

  /** The effect that runs after a settled read: it closes the request the record names. */
  function RecordSeen(c: Client, faulty: bool): Client {
    if c.query.phase != Loaded || c.query.record.None? then c
    else
      var seen := c.query.record.value.requestId;
      var closed := Acknowledged(c, seen, faulty);
      if c.shown.pendingId.None? || c.shown.pendingId == Some(seen)
      then closed.(mutation := Unblocked(closed.mutation)) else closed
  }

  /** The refresh button also retries the restore when storage has failed. */
  function RefreshClicked(c: Client, faulty: bool): Client {
    Refreshed(if c.shown.storageError then Restored(c, faulty) else c)
  }

  /** While the shown record is still running, a timer reads again. */
  function Polled(c: Client): Client {
    if c.shown.recordRunning && c.query.phase == Loaded && c.mutation.active.None? then Refreshed(c) else c
  }

  /** A commit starts the read its pending id asks for; another id is another read context. */
  function Reading(c: Client): Query {
    if !c.view.initialized then c.query
    else if c.query.asked != c.view.pendingId || c.query.phase == Idle then
      Query(c.view.pendingId, if c.view.pendingId.Some? then Confirming else ReadingLatest,
            if c.query.asked == c.view.pendingId then c.query.record else None)
    else c.query
  }

  function Committed(c: Client): Client {
    var query := Reading(c);
    c.(query := query,
       shown := Shown(c.view.pendingId, c.view.initialized, c.view.storageError, c.mutation.active.Some?,
                      !c.view.initialized || !query.Settled(),
                      query.record.Some? && query.record.value.running))
  }

  // ---- The panel as an object -------------------------------------------------------------

  /** The browser's storage for one key; `faulty` is the DOM exception it may throw. */
  class TabStorage {
    var slot: Slot

    constructor (slot: Slot)
      ensures this.slot == slot
    {
      this.slot := slot;
    }

    method GetItem(faulty: bool) returns (value: Option<Slot>)
      ensures value == if faulty then None else Some(slot)
    {
      value := if faulty then None else Some(slot);
    }

    method SetItem(id: Id, faulty: bool) returns (ok: bool)
      modifies this
      ensures ok == !faulty
      ensures slot == if faulty then old(slot) else Saved(id)
    {
      ok := !faulty;
      if ok { slot := Saved(id); }
    }

    method RemoveItem(faulty: bool) returns (ok: bool)
      modifies this
      ensures ok == !faulty
      ensures slot == if faulty then old(slot) else Empty
    {
      ok := !faulty;
      if ok { slot := Empty; }
    }
  }

  class Panel {
    const storage: TabStorage
    var pending: Option<Id>
    var view: View
    var shown: Shown
    var mutation: Mutation
    var query: Query

    ghost function State(): Client
      reads this, storage
    {
      Client(storage.slot, pending, view, shown, mutation, query)
    }

    constructor (storage: TabStorage)
      ensures this.storage == storage && State() == Mounted(storage.slot)
    {
      this.storage := storage;
      pending, view, shown := None, View(None, false, false), UNMOUNTED;
      mutation, query := Mutation(None, false), Query(None, Idle, None);
    }

    method Restore(faulty: bool)
      modifies this
      ensures State() == Restored(old(State()), faulty)
    {
      var value := storage.GetItem(faulty);
      if value.None? || value.value.Malformed? {
        view := view.(storageError := true);
      } else {
        pending := if value.value.Saved? then Some(value.value.id) else None;
        view := view.(pendingId := pending, storageError := false);
      }
      view := view.(initialized := true);
    }

    method Acknowledge(requestId: Id, faulty: bool)
      modifies this, storage
      ensures State() == Acknowledged(old(State()), requestId, faulty)
    {
      if pending.None? || pending.value != requestId { return; }
      var ok := storage.RemoveItem(faulty);
      if ok {
        pending := None;
        view := view.(pendingId := None, storageError := false);
      } else {
        view := view.(storageError := true);
      }
    }

    /** Returns the id of the POST that leaves the tab, if one does. */
    method Start(minted: Option<Id>, faulty: bool) returns (sent: Option<Id>)
      modifies this, storage
      ensures State() == Started(old(State()), minted, faulty)
      ensures sent == Sent(old(State()), minted, faulty)
    {
      sent := None;
      if shown.busy || shown.queryPending || shown.recordRunning || shown.storageError || !shown.initialized {
        return;
      }
      var id := pending;
      if id.None? {
        var ok := minted.Some?;
        if ok { ok := storage.SetItem(minted.value, faulty); }
        if !ok {
          view := view.(storageError := true);
          return;
        }
        id := minted;
        pending := id;
        view := view.(pendingId := id);
      }
      mutation := Unblocked(mutation);
      if mutation.active.None? && !mutation.blocked { sent := id; }
      mutation := Submitted(mutation, id.value);
    }

    method OnPostSucceeded(faulty: bool)
      requires mutation.active.Some?
      modifies this, storage
      ensures State() == PostSucceeded(old(State()), faulty)
    {
      var requestId := mutation.active.value;
      mutation := mutation.(active := None);
      Acknowledge(requestId, faulty);
      query := query.(phase := Idle);
    }

    method OnPostFailed()
      modifies this
      ensures State() == PostFailed(old(State()))
    {
      mutation := Mutation(None, true);
      query := query.(phase := Idle);
    }

    method OnRecordSeen(faulty: bool)
      modifies this, storage
      ensures State() == RecordSeen(old(State()), faulty)
    {
      if query.phase == Loaded && query.record.Some? {
        var seen := query.record.value.requestId;
        Acknowledge(seen, faulty);
        if shown.pendingId.None? || shown.pendingId == Some(seen) {
          mutation := Unblocked(mutation);
        }
      }
    }

    method OnRefreshClicked(faulty: bool)
      modifies this
      ensures State() == RefreshClicked(old(State()), faulty)
    {
      if shown.storageError { Restore(faulty); }
      query := query.(phase := Idle);
    }
  }
}
