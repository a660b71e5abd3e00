/**
 Every run of one tab against a network that delays, repeats and loses messages and a server that
 keeps each accepted request under its id for good.
 */
module ReconciliationProtocol {
  import opened Identity
  import opened Wrappers
  import opened Sets
  import opened Reconciliation

  /**
   `posted` holds the ids this tab has ever sent, `confirmed` the ids a server record has told it
   about, `held` the ids in the server's ledger. The panel itself sees none of the three sets.
   */
  datatype World = World(client: Client, posted: set<Id>, confirmed: set<Id>, held: set<Id>)

  datatype Event =
    | Reload
    | Restore(faulty: bool)
    | Commit
    | Refresh(faulty: bool)
    | Poll
    | Start(minted: Option<Id>, faulty: bool)
    | Deliver(id: Id, accepted: bool)
    | OtherClient(id: Id)
    | PostAnswered(faulty: bool)
    | PostLost
    | ConfirmAnswered(running: bool)
    | ConfirmMissing
    | LatestAnswered(record: Option<Record>)
    | ReadLost
    | RecordEffect(faulty: bool)

  /** What the environment may do: the server only names requests it holds, late answers included. */
  predicate Allowed(w: World, e: Event) {
    match e
    case Restore(_) => !w.client.view.initialized
    case Deliver(id, _) => id in w.posted
    case PostAnswered(_) => w.client.mutation.active.Some? && w.client.mutation.active.value in w.held
    case PostLost => w.client.mutation.active.Some?
    case ConfirmAnswered(_) =>
      w.client.query.phase == Confirming && w.client.query.asked.Some? && w.client.query.asked.value in w.held
    case ConfirmMissing => w.client.query.phase == Confirming
    case LatestAnswered(record) =>
      w.client.query.phase == ReadingLatest && (record.Some? ==> record.value.requestId in w.held)
    case ReadLost => w.client.query.phase in {Confirming, ReadingLatest}
    case _ => true
  }

  function WithClient(w: World, c: Client): World {
    w.(client := c)
  }

  function WithRecord(w: World, record: Option<Record>): World {
    w.(client := w.client.(query := w.client.query.(phase := Loaded, record := record)),
       confirmed := if record.Some? then w.confirmed + {record.value.requestId} else w.confirmed)
  }

  /** The id the event puts on the wire. */
  function Posts(w: World, e: Event): Option<Id> {
    if e.Start? then Sent(w.client, e.minted, e.faulty) else None
  }

  function Next(w: World, e: Event): World
    requires Allowed(w, e)
  {
    match e
    case Reload => WithClient(w, Mounted(w.client.slot))
    case Restore(faulty) => WithClient(w, Restored(w.client, faulty))
    case Commit => WithClient(w, Committed(w.client))
    case Refresh(faulty) => WithClient(w, RefreshClicked(w.client, faulty))
    case Poll => WithClient(w, Polled(w.client))
    case Start(minted, faulty) =>
      var sent := Posts(w, e);
      WithClient(w, Started(w.client, minted, faulty)).(
        posted := if sent.Some? then w.posted + {sent.value} else w.posted)
    case Deliver(id, accepted) => w.(held := if accepted then w.held + {id} else w.held)
    case OtherClient(id) => w.(held := w.held + {id})
    case PostAnswered(faulty) =>
      WithClient(w, PostSucceeded(w.client, faulty)).(confirmed := w.confirmed + {w.client.mutation.active.value})
    case PostLost => WithClient(w, PostFailed(w.client))
    case ConfirmAnswered(running) => WithRecord(w, Some(Record(w.client.query.asked.value, running)))
    case ConfirmMissing => w.(client := w.client.(query := w.client.query.(phase := ReadingLatest)))
    case LatestAnswered(record) => WithRecord(w, record)
    case ReadLost => w.(client := w.client.(query := w.client.query.(phase := Failed)))
    case RecordEffect(faulty) => WithClient(w, RecordSeen(w.client, faulty))
  }

  /** A tab that has sent nothing yet; its slot may be damaged, or hold an id saved before it opened. */
  predicate Initial(w: World) {
    w.client == Mounted(w.client.slot) && w.posted == {} && w.confirmed == {}
  }

  // ---- Runs -------------------------------------------------------------------------------

  predicate Possible(w: World, es: seq<Event>)
    decreases es
  {
    es == [] || (Allowed(w, es[0]) && Possible(Next(w, es[0]), es[1..]))
  }

  function After(w: World, es: seq<Event>): World
    requires Possible(w, es)
    decreases es
  {
    if es == [] then w else After(Next(w, es[0]), es[1..])
  }

  lemma {:induction false} Prefix(w: World, es: seq<Event>, n: nat)
    requires Possible(w, es) && n <= |es|
    ensures Possible(w, es[..n]) && Possible(After(w, es[..n]), es[n..])
    ensures After(After(w, es[..n]), es[n..]) == After(w, es)
    decreases es
  {
    if n == 0 {
      assert es[..0] == [] && es[0..] == es;
    } else {
      Prefix(Next(w, es[0]), es[1..], n - 1);
      assert es[..n][1..] == es[1..][..n - 1] && es[n..] == es[1..][n - 1..];
    }
  }

  // ---- The invariant ----------------------------------------------------------------------

  /**
   The pending ref and the storage slot agree, except while a failed or unfinished restore is known
   to every handler that could act on the ref.
   */
  predicate Consistent(c: Client) {
    && (c.pending.Some? ==> c.slot == Saved(c.pending.value))
    && (c.pending.None? && c.slot != Empty ==>
          (!c.view.initialized || c.view.storageError) && (!c.shown.initialized || c.shown.storageError))
  }

  predicate Inv(w: World) {
    && Consistent(w.client)
    && w.confirmed <= w.held
    && (forall id | id in w.posted :: id in w.confirmed || w.client.slot == Saved(id))
    && (w.client.mutation.active.Some? ==> w.client.mutation.active.value in w.posted)
    && (w.client.query.phase == Loaded && w.client.query.record.Some?
        ==> w.client.query.record.value.requestId in w.confirmed)
  }

  lemma InitialInv(w: World)
    requires Initial(w)
    ensures Inv(w)
  {
  }

  lemma NextConsistent(w: World, e: Event)
    requires Inv(w) && Allowed(w, e)
    ensures Consistent(Next(w, e).client)
  {
  }

  lemma NextGrows(w: World, e: Event)
    requires Inv(w) && Allowed(w, e)
    ensures w.posted <= Next(w, e).posted && w.confirmed <= Next(w, e).confirmed && w.held <= Next(w, e).held
    ensures Next(w, e).confirmed <= Next(w, e).held
  {
  }

  lemma NextSaved(w: World, e: Event)
    requires Inv(w) && Allowed(w, e)
    ensures forall id | id in Next(w, e).posted :: id in Next(w, e).confirmed || Next(w, e).client.slot == Saved(id)
  {
  }

  lemma NextOpen(w: World, e: Event)
    requires Inv(w) && Allowed(w, e)
    ensures var c := Next(w, e).client;
            && (c.mutation.active.Some? ==> c.mutation.active.value in Next(w, e).posted)
            && (c.query.phase == Loaded && c.query.record.Some?
                ==> c.query.record.value.requestId in Next(w, e).confirmed)
  {
  }

  /** No event of the panel, the network, the server or another client breaks the invariant. */
  lemma NextInv(w: World, e: Event)
    requires Inv(w) && Allowed(w, e)
    ensures Inv(Next(w, e))
    ensures w.posted <= Next(w, e).posted && w.confirmed <= Next(w, e).confirmed && w.held <= Next(w, e).held
  {
    NextConsistent(w, e);
    NextGrows(w, e);
    NextSaved(w, e);
    NextOpen(w, e);
  }

  lemma {:induction false} ReachableInv(w: World, es: seq<Event>)
    requires Inv(w) && Possible(w, es)
    ensures Inv(After(w, es))
    ensures w.posted <= After(w, es).posted && w.confirmed <= After(w, es).confirmed
    decreases es
  {
    if es != [] {
      NextInv(w, es[0]);
      ReachableInv(Next(w, es[0]), es[1..]);
    }
  }

  // ---- What each event does, in terms of what can be seen ---------------------------------

  /** A reload keeps the slot and forgets the rest; until the slot is read and rendered no click sends anything. */
  lemma ReloadForgets(w: World, restored: bool, minted: Option<Id>, faulty: bool)
    ensures var d := Next(w, Reload).client;
            && d.slot == w.client.slot && d.pending == None && d.view == View(None, false, false)
            && d.mutation == Mutation(None, false) && d.query == Query(None, Idle, None)
    ensures var tab := if restored then Next(Next(w, Reload), Restore(false)) else Next(w, Reload);
            Posts(tab, Start(minted, faulty)) == None
  {
  }

  /** Reading the slot: a saved id or its absence is taken over; a fault or a damaged slot changes nothing else. */
  lemma RestoreReads(w: World, faulty: bool)
    requires !w.client.view.initialized
    ensures var c, d := w.client, Next(w, Restore(faulty)).client;
            && d.view.initialized && d.slot == c.slot && d.mutation == c.mutation && d.query == c.query
            && if faulty || c.slot == Malformed
               then d.view.storageError && d.pending == c.pending && d.view.pendingId == c.view.pendingId
               else !d.view.storageError && d.pending == d.view.pendingId
                    && (d.pending.Some? <==> c.slot.Saved?) && (c.slot.Saved? ==> d.pending == Some(c.slot.id))
  {
  }

  /** After a commit the read fits the pending id: the one already going on, or a new one. */
  lemma CommitReads(w: World)
    requires w.client.view.initialized
    ensures var c, d := w.client, Next(w, Commit).client;
            && d.slot == c.slot && d.pending == c.pending && d.view == c.view && d.mutation == c.mutation
            && d.query.asked == c.view.pendingId
            && (c.query.asked == c.view.pendingId && c.query.phase != Idle ==> d.query == c.query)
            && (c.query.asked == c.view.pendingId && c.query.phase == Idle ==> d.query.record == c.query.record)
            && (c.query.asked != c.view.pendingId ==> d.query.record == None)
            && (c.query.asked != c.view.pendingId || c.query.phase == Idle
                ==> d.query.phase == if c.view.pendingId == None then ReadingLatest else Confirming)
  {
  }

  /** What a click right after a commit sends: the pending id or a new one, and nothing unless the panel is ready. */
  lemma ClickExact(w: World, minted: Option<Id>, faulty: bool)
    ensures var c := w.client;
            var ready := c.view.initialized && !c.view.storageError && c.mutation.active == None
                         && c.query.asked == c.view.pendingId && (c.query.phase == Loaded || c.query.phase == Failed)
                         && !(c.query.record.Some? && c.query.record.value.running);
            Posts(Next(w, Commit), Start(minted, faulty))
            == if !ready then None else if c.pending != None then c.pending else if faulty then None else minted
  {
  }

  /** A click that sends has saved the id and lifted the block; one that cannot save shows the fault only. */
  lemma ClickSaves(w: World, minted: Option<Id>, faulty: bool)
    ensures var c, d := w.client, Next(w, Start(minted, faulty)).client;
            var sent := Posts(w, Start(minted, faulty));
            && (sent.Some? ==> d.mutation == Mutation(sent, false) && d.pending == sent)
            && (sent.Some? ==> d.view.storageError == c.view.storageError)
            && (sent.Some? && c.pending == None ==> d.slot == Saved(sent.value) && d.view.pendingId == sent)
            && (sent.Some? && c.pending != None ==> d.slot == c.slot && d.view == c.view)
            && (c.pending == None && (faulty || minted == None) && d != c
                ==> d == c.(view := View(c.view.pendingId, c.view.initialized, true)))
  {
  }

  /** A lost write keeps the request everywhere, blocks the next one, and asks for a new read. */
  lemma LossKeeps(w: World)
    requires w.client.mutation.active.Some?
    ensures var c, d := w.client, Next(w, PostLost).client;
            && d.slot == c.slot && d.pending == c.pending && d.view == c.view
            && d.mutation == Mutation(None, true) && d.query == Query(c.query.asked, Idle, c.query.record)
  {
  }

  /** An answered write closes the request it was about, if that is still the pending one, and asks for a new read. */
  lemma AnswerCloses(w: World)
    requires w.client.mutation.active.Some? && w.client.mutation.active.value in w.held
    ensures var c, d := w.client, Next(w, PostAnswered(false)).client;
            && d.mutation == Mutation(None, c.mutation.blocked) && d.query == Query(c.query.asked, Idle, c.query.record)
            && if c.pending == c.mutation.active
               then d.slot == Empty && d.pending == None && d.view == View(None, c.view.initialized, false)
               else d.slot == c.slot && d.pending == c.pending && d.view == c.view
  {
  }

  /** A refresh asks for a new read; a poll does while the shown record runs, with no read or write under way. */
  lemma RereadsExact(w: World)
    ensures var c := w.client;
            var again := c.(query := Query(c.query.asked, Idle, c.query.record));
            && Next(w, Refresh(false)).client.query == again.query
            && (!c.shown.storageError ==> Next(w, Refresh(false)).client == again)
            && Next(w, Poll).client
               == if c.shown.recordRunning && c.query.phase == Loaded && c.mutation.active == None then again else c
  {
  }

  // ---- Safety over whole runs -------------------------------------------------------------

  /** At every moment at most one id the tab has sent is still without a server record. */
  lemma AtMostOneUnsettled(w: World, es: seq<Event>)
    requires Initial(w) && Possible(w, es)
    ensures |After(w, es).posted - After(w, es).confirmed| <= 1
    ensures |After(w, es).posted * After(w, es).held| <= |After(w, es).posted * After(w, es).confirmed| + 1
  {
    InitialInv(w);
    ReachableInv(w, es);
    var u := After(w, es);
    var unsettled := u.posted - u.confirmed;
    if u.client.slot.Saved? {
      assert unsettled <= {u.client.slot.id};
      AtMostOne(unsettled, u.client.slot.id);
    } else {
      assert unsettled == {};
    }
    assert u.posted * u.held <= (u.posted * u.confirmed) + unsettled;
    SubsetSize(u.posted * u.held, (u.posted * u.confirmed) + unsettled);
  }

  lemma AtMostOne(s: set<Id>, id: Id)
    requires s <= {id}
    ensures |s| <= 1
  {
    SubsetSize(s, {id});
  }

  /** Until a request is settled, everything the tab sends is that same request. */
  lemma RetriesReuseTheRequest(w: World, es: seq<Event>, i: nat, j: nat)
    requires Initial(w) && Possible(w, es) && i < j < |es|
    requires Possible(w, es[..i]) && Posts(After(w, es[..i]), es[i]).Some?
    requires Possible(w, es[..j]) && Posts(After(w, es[..j]), es[j]).Some?
    requires Posts(After(w, es[..i]), es[i]).value !in After(w, es[..j]).confirmed
    ensures Posts(After(w, es[..j]), es[j]) == Posts(After(w, es[..i]), es[i])
  {
    InitialInv(w);
    ReachableInv(w, es[..i]);
    ReachableInv(w, es[..j]);
    Prefix(w, es, i);
    var u, v := After(w, es[..i]), After(w, es[..j]);
    var next := Next(u, es[i]);
    var between := es[i + 1..j];
    NextInv(u, es[i]);
    assert es[..j] == es[..i] + es[i..j] && es[i..j] == [es[i]] + between;
    Prefix(w, es[..j], i);
    assert es[..j][..i] == es[..i] && es[..j][i..] == es[i..j];
    assert es[i..j][1..] == between;
    ReachableInv(next, between);
    assert After(next, between) == v;
  }

  /**
   A new id goes on the wire only when every id sent before it is known to be in the ledger, and it
   is in storage before it is sent.
   */
  lemma FreshOnlyWhenSettled(w: World, es: seq<Event>, e: Event)
    requires Initial(w) && Possible(w, es) && Allowed(After(w, es), e)
    requires Posts(After(w, es), e).Some? && Posts(After(w, es), e).value !in After(w, es).posted
    ensures After(w, es).posted <= After(w, es).confirmed <= After(w, es).held
    ensures Next(After(w, es), e).client.slot == Saved(Posts(After(w, es), e).value)
  {
    InitialInv(w);
    ReachableInv(w, es);
  }

  /**
   The saved id leaves storage in one way only: a server record named it. In particular a "not
   found" answer that shows another request's record, a failed write and a reload all keep it.
   */
  lemma SavedUntilHeld(w: World, es: seq<Event>, e: Event)
    requires Initial(w) && Possible(w, es) && Allowed(After(w, es), e)
    requires After(w, es).client.slot.Saved? && Next(After(w, es), e).client.slot != After(w, es).client.slot
    ensures Next(After(w, es), e).client.slot == Empty
    ensures After(w, es).client.slot.id in Next(After(w, es), e).confirmed
    ensures After(w, es).client.slot.id in After(w, es).held
    ensures e.PostAnswered? || (e.RecordEffect? && After(w, es).client.query.record
              == Some(Record(After(w, es).client.slot.id, After(w, es).client.query.record.value.running)))
  {
    InitialInv(w);
    ReachableInv(w, es);
    NextInv(After(w, es), e);
  }

  predicate Settles(e: Event) {
    e.Reload? || e.PostAnswered? || e.PostLost?
  }

  lemma {:induction false} ActiveStays(w: World, es: seq<Event>)
    requires Possible(w, es) && w.client.mutation.active.Some?
    requires forall k | 0 <= k < |es| :: !Settles(es[k])
    ensures After(w, es).client.mutation.active == w.client.mutation.active
    decreases es
  {
    if es != [] {
      assert !Settles(es[0]);
      assert Next(w, es[0]).client.mutation.active == w.client.mutation.active;
      ActiveStays(Next(w, es[0]), es[1..]);
    }
  }

  /** Stale handlers included, two sends are always separated by an answer, a loss or a reload. */
  lemma SendsDoNotOverlap(w: World, es: seq<Event>, i: nat, j: nat)
    requires Possible(w, es) && i < j < |es|
    requires Possible(w, es[..i]) && Posts(After(w, es[..i]), es[i]).Some?
    requires Possible(w, es[..j]) && Posts(After(w, es[..j]), es[j]).Some?
    ensures exists k :: i < k < j && Settles(es[k])
  {
    Prefix(w, es, i);
    Prefix(w, es[..j], i);
    assert es[..j][..i] == es[..i] && es[..j][i..] == es[i..j];
    var next := Next(After(w, es[..i]), es[i]);
    var between := es[i + 1..j];
    assert es[i..j][1..] == between;
    assert After(next, between) == After(w, es[..j]);
    if forall k | 0 <= k < |between| :: !Settles(between[k]) {
      ActiveStays(next, between);
    } else {
      var k :| 0 <= k < |between| && Settles(between[k]);
      assert es[i + 1 + k] == between[k];
    }
  }

  // ---- Recovery ---------------------------------------------------------------------------

  /** After a reload the panel gets as far as a settled read, with what storage held. */
  function Reopened(w: World): World
    requires !w.client.slot.Malformed?
  {
    var asked := if w.client.slot.Saved? then Some(w.client.slot.id) else None;
    w.(client := Client(w.client.slot, asked, View(asked, true, false),
                        Shown(asked, true, false, false, false, false), Mutation(None, false),
                        Query(asked, Loaded, None)))
  }

  const REOPEN_EMPTY := [Reload, Restore(false), Commit, LatestAnswered(None), Commit]
  const REOPEN_SAVED := [Reload, Restore(false), Commit, ConfirmMissing, LatestAnswered(None), Commit]

  function ReopenEvents(slot: Slot): seq<Event> {
    if slot.Saved? then REOPEN_SAVED else REOPEN_EMPTY
  }

  lemma FirstStep(w: World, a: Event, es: seq<Event>)
    requires Allowed(w, a) && Possible(Next(w, a), es)
    ensures Possible(w, [a] + es) && After(w, [a] + es) == After(Next(w, a), es)
  {
    assert ([a] + es)[1..] == es;
  }

  /** The first three steps, whatever the slot holds. */
  function ReopenedReading(w: World): World
    requires !w.client.slot.Malformed?
  {
    Next(Next(Next(w, Reload), Restore(false)), Commit)
  }

  lemma ReopensReading(w: World, es: seq<Event>)
    requires !w.client.slot.Malformed? && Possible(ReopenedReading(w), es)
    ensures Possible(w, [Reload, Restore(false), Commit] + es)
    ensures After(w, [Reload, Restore(false), Commit] + es) == After(ReopenedReading(w), es)
  {
    var w1 := Next(w, Reload);
    var w2 := Next(w1, Restore(false));
    FirstStep(w2, Commit, es);
    FirstStep(w1, Restore(false), [Commit] + es);
    FirstStep(w, Reload, [Restore(false)] + ([Commit] + es));
    assert [Reload, Restore(false), Commit] + es == [Reload] + ([Restore(false)] + ([Commit] + es));
  }

  lemma ReopensSaved(w: World)
    requires w.client.slot.Saved?
    ensures Possible(ReopenedReading(w), [ConfirmMissing, LatestAnswered(None), Commit])
    ensures After(ReopenedReading(w), [ConfirmMissing, LatestAnswered(None), Commit]) == Reopened(w)
  {
    var w4 := Next(ReopenedReading(w), ConfirmMissing);
    var w5 := Next(w4, LatestAnswered(None));
    FirstStep(w5, Commit, []);
    FirstStep(w4, LatestAnswered(None), [Commit]);
    FirstStep(ReopenedReading(w), ConfirmMissing, [LatestAnswered(None), Commit]);
  }

  lemma ReopensEmpty(w: World)
    requires w.client.slot.Empty?
    ensures Possible(ReopenedReading(w), [LatestAnswered(None), Commit])
    ensures After(ReopenedReading(w), [LatestAnswered(None), Commit]) == Reopened(w)
  {
    var w5 := Next(ReopenedReading(w), LatestAnswered(None));
    FirstStep(w5, Commit, []);
    FirstStep(ReopenedReading(w), LatestAnswered(None), [Commit]);
  }

  lemma Reopens(w: World)
    requires !w.client.slot.Malformed?
    ensures Possible(w, ReopenEvents(w.client.slot))
    ensures After(w, ReopenEvents(w.client.slot)) == Reopened(w)
  {
    if w.client.slot.Saved? {
      ReopensSaved(w);
      ReopensReading(w, [ConfirmMissing, LatestAnswered(None), Commit]);
      assert REOPEN_SAVED == [Reload, Restore(false), Commit] + [ConfirmMissing, LatestAnswered(None), Commit];
    } else {
      ReopensEmpty(w);
      ReopensReading(w, [LatestAnswered(None), Commit]);
      assert REOPEN_EMPTY == [Reload, Restore(false), Commit] + [LatestAnswered(None), Commit];
    }
  }

  lemma {:induction false} Joined(w: World, es: seq<Event>, fs: seq<Event>)
    requires Possible(w, es) && Possible(After(w, es), fs)
    ensures Possible(w, es + fs) && After(w, es + fs) == After(After(w, es), fs)
    decreases es
  {
    if es == [] {
      assert es + fs == fs;
    } else {
      Joined(Next(w, es[0]), es[1..], fs);
      assert (es + fs)[1..] == es[1..] + fs;
    }
  }

  /** From any state with a readable slot: reload, click once, and let the server accept. */
  function RecoveryEvents(slot: Slot, minted: Id): seq<Event>
    requires !slot.Malformed?
  {
    ReopenEvents(slot) + SendEvents(if slot.Saved? then slot.id else minted, minted)
  }

  function SendEvents(id: Id, minted: Id): seq<Event> {
    [Start(Some(minted), false), Deliver(id, true), PostAnswered(false)]
  }

  /**
   No reachable state is a dead end while the slot is readable: some continuation sends exactly the
   saved request (or one new id when nothing is saved), settles it and leaves nothing open.
   */
  lemma AlwaysRecoverable(w: World, es: seq<Event>, minted: Id)
    requires Initial(w) && Possible(w, es) && !After(w, es).client.slot.Malformed?
    ensures var u := After(w, es);
            var fs := RecoveryEvents(u.client.slot, minted);
            var id := if u.client.slot.Saved? then u.client.slot.id else minted;
            && Possible(u, fs)
            && After(u, fs).posted == u.posted + {id}
            && After(u, fs).posted <= After(u, fs).confirmed
            && After(u, fs).client.slot == Empty
  {
    InitialInv(w);
    ReachableInv(w, es);
    var u := After(w, es);
    var id := if u.client.slot.Saved? then u.client.slot.id else minted;
    Reopens(u);
    Resends(u, minted);
    Joined(u, ReopenEvents(u.client.slot), SendEvents(id, minted));
  }

  /** From the reopened panel: one click sends the request, the server accepts it, the answer settles it. */
  lemma Resends(u: World, minted: Id)
    requires Inv(u) && !u.client.slot.Malformed?
    ensures var id := if u.client.slot.Saved? then u.client.slot.id else minted;
            && Possible(Reopened(u), SendEvents(id, minted))
            && After(Reopened(u), SendEvents(id, minted)).posted == u.posted + {id}
            && After(Reopened(u), SendEvents(id, minted)).confirmed == u.confirmed + {id}
            && After(Reopened(u), SendEvents(id, minted)).client.slot == Empty
  {
    var id := if u.client.slot.Saved? then u.client.slot.id else minted;
    var r := Reopened(u);
    var r1 := Next(r, Start(Some(minted), false));
    assert Sent(r.client, Some(minted), false) == Some(id);
    var r2 := Next(r1, Deliver(id, true));
    assert r1.client.mutation.active == Some(id) && r1.posted == u.posted + {id};
    var r3 := Next(r2, PostAnswered(false));
    assert r3.client.slot == Empty && r3.posted == u.posted + {id} && r3.confirmed == u.confirmed + {id};
    FirstStep(r2, PostAnswered(false), []);
    FirstStep(r1, Deliver(id, true), [PostAnswered(false)]);
    FirstStep(r, Start(Some(minted), false), [Deliver(id, true), PostAnswered(false)]);
  }

  /**
   A settled read that names the pending request closes it: slot, ref and state are emptied, and a
   failed write no longer blocks. One that names another request leaves all three alone.
   */
  lemma ReadCloses(w: World, es: seq<Event>)
    requires Initial(w) && Possible(w, es)
    requires After(w, es).client.query.phase == Loaded && After(w, es).client.query.record.Some?
    ensures var c, d := After(w, es).client, Next(After(w, es), RecordEffect(false)).client;
            var named := Some(c.query.record.value.requestId);
            if c.pending == named then
              && d.slot == Empty && d.pending == None && d.view == View(None, c.view.initialized, false)
              && (c.shown.pendingId in {None, named} && c.mutation.active == None ==> !d.mutation.blocked)
            else d.slot == c.slot && d.pending == c.pending && d.view == c.view
  {
  }

  /** When storage fails meanwhile, the request stays open and the fault is shown. */
  lemma ReadClosesOnlyInStorage(w: World, es: seq<Event>)
    requires Initial(w) && Possible(w, es)
    requires After(w, es).client.query.phase == Loaded && After(w, es).client.query.record.Some?
    ensures var c, d := After(w, es).client, Next(After(w, es), RecordEffect(true)).client;
            && d.slot == c.slot && d.pending == c.pending && d.view.pendingId == c.view.pendingId
            && (c.pending == Some(c.query.record.value.requestId) ==> d.view.storageError)
  {
  }

  const REREAD := [Reload, Restore(false), Commit, ConfirmAnswered(false), RecordEffect(false)]

  lemma RereadCloses(u: World)
    requires u.client.slot.Saved? && u.client.slot.id in u.held
    ensures Possible(ReopenedReading(u), [ConfirmAnswered(false), RecordEffect(false)])
    ensures var v := After(ReopenedReading(u), [ConfirmAnswered(false), RecordEffect(false)]);
            v.client.slot == Empty && v.client.pending == None && v.posted == u.posted
  {
    var r := ReopenedReading(u);
    var r1 := Next(r, ConfirmAnswered(false));
    FirstStep(r1, RecordEffect(false), []);
    FirstStep(r, ConfirmAnswered(false), [RecordEffect(false)]);
  }

  /** A request the ledger holds is closed by reading alone: no click, and nothing is sent. */
  lemma ClosedByReading(w: World, es: seq<Event>)
    requires Initial(w) && Possible(w, es)
    requires After(w, es).client.slot.Saved? && After(w, es).client.slot.id in After(w, es).held
    ensures Possible(After(w, es), REREAD) && forall e | e in REREAD :: !e.Start?
    ensures After(After(w, es), REREAD).client.slot == Empty
    ensures After(After(w, es), REREAD).posted == After(w, es).posted
    ensures After(After(w, es), REREAD).client.pending == None
  {
    RereadCloses(After(w, es));
    ReopensReading(After(w, es), [ConfirmAnswered(false), RecordEffect(false)]);
    assert REREAD == [Reload, Restore(false), Commit] + [ConfirmAnswered(false), RecordEffect(false)];
  }

  predicate Disabled(w: World) {
    && w.client.slot.Malformed? && w.client.pending.None?
    && (w.client.view.initialized ==> w.client.view.storageError)
    && (w.client.shown.initialized ==> w.client.shown.storageError)
  }

  lemma {:induction false} DisabledForever(w: World, es: seq<Event>)
    requires Disabled(w) && Possible(w, es)
    ensures Disabled(After(w, es)) && After(w, es).posted == w.posted
    decreases es
  {
    if es != [] {
      DisabledForever(Next(w, es[0]), es[1..]);
    }
  }

  lemma {:induction false} DamageStays(w: World, es: seq<Event>)
    requires Inv(w) && Possible(w, es) && !w.client.slot.Malformed?
    ensures !After(w, es).client.slot.Malformed?
    decreases es
  {
    if es != [] {
      NextInv(w, es[0]);
      DamageStays(Next(w, es[0]), es[1..]);
    }
  }

  /**
   The one dead end: a slot that held no valid UUID when the tab opened. No reload, retry or
   refresh repairs it, and from every other reachable state the tab can still send a request.
   */
  lemma SendsExactlyUnlessDamaged(w: World, es: seq<Event>)
    requires Initial(w) && Possible(w, es)
    ensures (exists fs, e :: Possible(After(w, es), fs) && Posts(After(After(w, es), fs), e).Some?)
       <==> !w.client.slot.Malformed?
  {
    var u := After(w, es);
    if w.client.slot.Malformed? {
      DisabledForever(w, es);
      forall fs, e | Possible(u, fs) ensures Posts(After(u, fs), e).None? {
        DisabledForever(u, fs);
      }
    } else {
      InitialInv(w);
      DamageStays(w, es);
      Reopens(u);
      assert Posts(After(u, ReopenEvents(u.client.slot)), Start(Some(1), false)).Some?;
    }
  }
}
