/**
 Reading all schedules of a project page by page. The server is any function from the number of the
 request and its offset to an answer, so whatever it does between two requests is covered.
 */
module SchedulePaging {
  import opened Identity
  import opened Sequences
  import opened Wrappers

  /** The fields of a record that the loader looks at; `rest` stands for all others. */
  datatype Schedule = Schedule(id: Id, project: Id, status: string, rest: string)

  datatype Page = Page(schedules: seq<Schedule>, total: int, limit: int, offset: int)

  /** An answer that is not a page of well-formed records at all, or one that is. */
  datatype Response = Failed | Answered(page: Page)

  datatype Query = Query(limit: int, offset: int, q: string, status: Option<string>)

  type Server = (nat, nat) -> Response

  const PAGE_SIZE: nat := 100
  const STATUSES := {"ACTIVE", "PAUSED", "COMPLETED", "ERROR", "ARCHIVED"}

  function Ids(xs: seq<Schedule>): (ids: seq<Id>) {
    seq(|xs|, i requires 0 <= i < |xs| => xs[i].id)
  }

  // ---- One page ---------------------------------------------------------------------------

  predicate IsValidQuery(query: Query) {
    && 1 <= query.limit <= 100 && query.offset >= 0 && |query.q| <= 200 && '\0' !in query.q
    && (query.status.Some? ==> query.status.value in STATUSES)
  }

  predicate IsPage(page: Page, query: Query, project: Id) {
    && page.total >= 0 && page.limit == query.limit && page.offset == query.offset
    && |page.schedules| <= query.limit
    && |page.schedules| <= (if page.total > query.offset then page.total - query.offset else 0)
    && !(page.schedules == [] && query.offset < page.total)
    && (forall s | s in page.schedules ::
          s.project == project && (query.status.Some? ==> s.status == query.status.value))
    && AllDifferent(Ids(page.schedules))
  }

  function LoadPage(query: Query, project: Id, response: Response): (r: Result<Page>) {
    if IsValidQuery(query) && response.Answered? && IsPage(response.page, query, project) then Ok(response.page)
    else Refused
  }

  /** Some of what stands at this place of the list, and not nothing if there is something. */
  ghost predicate PartAt(list: seq<Schedule>, offset: int, limit: int, xs: seq<Schedule>)
    requires offset >= 0
  {
    && |xs| <= limit
    && if offset < |list| then 0 < |xs| <= |list| - offset && list[offset..offset + |xs|] == xs else xs == []
  }

  /**
   An answer is accepted exactly when the query was a proper one and the page could have been cut from a
   list of the announced length at the place that was asked for, without repeated ids and with schedules
   of the project and the status only.
   */
  lemma LoadPageExact(query: Query, project: Id, response: Response)
    ensures LoadPage(query, project, response).Ok?
       <==> && 1 <= query.limit <= 100 && query.offset >= 0
            && |query.q| <= 200 && (forall c | c in query.q :: c != '\0')
            && (query.status.None? || query.status.value in ["ACTIVE", "PAUSED", "COMPLETED", "ERROR", "ARCHIVED"])
            && response.Answered?
            && var page := response.page;
               && page.limit == query.limit && page.offset == query.offset
               && (exists list :: |list| == page.total && PartAt(list, query.offset, query.limit, page.schedules))
               && Distinct(Ids(page.schedules))
               && forall s | s in page.schedules ::
                    s.project == project && (query.status.Some? ==> s.status == query.status.value)
    ensures LoadPage(query, project, response).Ok? ==> LoadPage(query, project, response).value == response.page
  {
    if response.Answered? && query.offset >= 0 {
      PartsExist(query.offset, query.limit, response.page);
    }
  }

  lemma PartsExist(offset: int, limit: int, page: Page)
    requires offset >= 0
    ensures (exists list :: |list| == page.total && PartAt(list, offset, limit, page.schedules))
       <==> && page.total >= 0 && |page.schedules| <= limit
            && |page.schedules| <= (if page.total > offset then page.total - offset else 0)
            && !(page.schedules == [] && offset < page.total)
  {
    if && page.total >= 0 && |page.schedules| <= limit
       && |page.schedules| <= (if page.total > offset then page.total - offset else 0)
       && !(page.schedules == [] && offset < page.total)
    {
      var xs, filler := page.schedules, Schedule(0, 0, "", "");
      var list := seq(page.total, i => if 0 <= i - offset < |xs| then xs[i - offset] else filler);
      if offset < page.total {
        assert list[offset..offset + |page.schedules|] == page.schedules;
      }
      assert PartAt(list, offset, limit, page.schedules);
    }
  }

  function NextPage(server: Server, project: Id, n: nat, offset: nat): (r: Result<Page>)
    ensures r.Ok? ==> IsPage(r.value, Query(PAGE_SIZE, offset, "", None), project)
  {
    LoadPage(Query(PAGE_SIZE, offset, "", None), project, server(n, offset))
  }

  // ---- All pages --------------------------------------------------------------------------

  predicate Overlaps(xs: seq<Schedule>, ys: seq<Schedule>) {
    exists y | y in ys :: y.id in Ids(xs)
  }

  /** What reading on from here returns, n requests and the given items into it. */
  function Collect(server: Server, project: Id, n: nat, items: seq<Schedule>, total: Option<int>)
      : (r: Result<seq<Schedule>>)
    requires total.Some? ==> |items| < total.value
    decreases total.None?, if total.Some? then total.value - |items| else 0
  {
    match NextPage(server, project, n, |items|)
    case Refused => Refused
    case Ok(page) =>
      if (total.Some? && total.value != page.total) || Overlaps(items, page.schedules) then Refused
      else
        var all := items + page.schedules;
        if |all| < page.total then Collect(server, project, n + 1, all, Some(page.total)) else Ok(all)
  }

  /** The loop over one page: every schedule is kept unless its id has been read before. */
  method AppendPage(read: seq<Schedule>, known: set<Id>, page: seq<Schedule>)
      returns (ok: bool, items: seq<Schedule>, identities: set<Id>)
    requires known == Elements(Ids(read)) && Distinct(Ids(page))
    ensures ok <==> !Overlaps(read, page)
    ensures ok ==> items == read + page && identities == Elements(Ids(items))
  {
    ok, items, identities := true, read, known;
    var i := 0;
    while i < |page|
      invariant 0 <= i <= |page|
      invariant items == read + page[..i] && identities == Elements(Ids(items))
      invariant !Overlaps(read, page[..i])
    {
      var item := page[i];
      assert page[..i + 1] == page[..i] + [item];
      if item.id in identities {
        SeenBefore(read, page, i);
        return false, items, identities;
      }
      identities := identities + {item.id};
      assert Ids(items + [item]) == Ids(items) + [item.id];
      assert Ids(items) == Ids(read) + Ids(page[..i]);
      items := items + [item];
      i := i + 1;
    }
    assert page[..i] == page;
  }

  /** `loadProjectSchedules`; it ends because every accepted page brings the total closer. */
  method LoadProjectSchedules(server: Server, project: Id) returns (r: Result<seq<Schedule>>)
    ensures r == Collect(server, project, 0, [], None)
  {
    var items: seq<Schedule>, identities: set<Id> := [], {};
    var total: Option<int>, n := None, 0;
    ghost var result := Collect(server, project, 0, [], None);
    while total.None? || |items| < total.value
      invariant result == if total.Some? && |items| >= total.value then Ok(items)
                          else Collect(server, project, n, items, total)
      invariant identities == Elements(Ids(items))
      decreases total.None?, if total.Some? then total.value - |items| else 0
    {
      var next := NextPage(server, project, n, |items|);
      if next.Refused? {
        return Refused;
      }
      var page := next.value;
      if total.Some? && total.value != page.total {
        return Refused;
      }
      var ok, all, known := AppendPage(items, identities, page.schedules);
      if !ok {
        return Refused;
      }
      items, identities := all, known;
      total := Some(page.total);
      n := n + 1;
    }
    return Ok(items);
  }

  /** On a page without repeated ids, an id seen already was seen on an earlier page. */
  lemma SeenBefore(before: seq<Schedule>, page: seq<Schedule>, i: nat)
    requires Distinct(Ids(page)) && i < |page| && page[i].id in Ids(before + page[..i])
    ensures Overlaps(before, page)
  {
    assert Ids(before + page[..i]) == Ids(before) + Ids(page[..i]);
    assert forall j | 0 <= j < i :: Ids(page)[j] != Ids(page)[i] && Ids(page[..i])[j] == Ids(page)[j];
    assert page[i].id !in Ids(page[..i]);
    assert page[i] in page;
  }

  // ---- What is returned -------------------------------------------------------------------

  predicate InProject(xs: seq<Schedule>, project: Id) {
    forall s | s in xs :: s.project == project
  }

  lemma JoinedDistinct(xs: seq<Schedule>, ys: seq<Schedule>)
    ensures Distinct(Ids(xs + ys)) <==> Distinct(Ids(xs)) && Distinct(Ids(ys)) && !Overlaps(xs, ys)
  {
    var a, b := Ids(xs), Ids(ys);
    assert Ids(xs + ys) == a + b;
    if Distinct(a + b) {
      forall i, j | 0 <= i < j < |b| ensures b[i] != b[j] {
        assert (a + b)[|a| + i] != (a + b)[|a| + j];
      }
      forall i, j | 0 <= i < j < |a| ensures a[i] != a[j] {
        assert (a + b)[i] != (a + b)[j];
      }
      forall y | y in ys ensures y.id !in a {
        var j :| 0 <= j < |ys| && ys[j] == y;
        assert (a + b)[|a| + j] == y.id;
        assert forall i | 0 <= i < |a| :: (a + b)[i] != (a + b)[|a| + j] && a[i] == (a + b)[i];
      }
    }
    if Distinct(a) && Distinct(b) && !Overlaps(xs, ys) {
      forall i, j | 0 <= i < j < |a| + |b| ensures (a + b)[i] != (a + b)[j] {
        if i < |a| <= j {
          assert ys[j - |a|] in ys && a[i] in a;
        }
      }
    }
  }

  lemma {:induction false} CollectedFrom(server: Server, project: Id, n: nat, items: seq<Schedule>, total: Option<int>)
    requires if total.Some? then |items| < total.value else items == []
    requires Distinct(Ids(items)) && InProject(items, project)
    requires Collect(server, project, n, items, total).Ok?
    ensures var r := Collect(server, project, n, items, total).value;
            && items <= r && Distinct(Ids(r)) && InProject(r, project)
            && server(n, |items|).Answered?
            && |r| == (if total.Some? then total.value else server(n, |items|).page.total)
    decreases total.None?, if total.Some? then total.value - |items| else 0
  {
    var page := NextPage(server, project, n, |items|).value;
    var all := items + page.schedules;
    JoinedDistinct(items, page.schedules);
    if |all| < page.total {
      CollectedFrom(server, project, n + 1, all, Some(page.total));
    }
  }

  /** Whatever the server does, a list that is returned has as many schedules as were announced, all different. */
  lemma CollectedExactly(server: Server, project: Id)
    ensures var r := Collect(server, project, 0, [], None);
            r.Ok? ==>
              && server(0, 0).Answered? && |r.value| == server(0, 0).page.total
              && Distinct(Ids(r.value)) && InProject(r.value, project)
  {
    if Collect(server, project, 0, [], None).Ok? {
      CollectedFrom(server, project, 0, [], None);
    }
  }

  // ---- An honest server whose list changes between requests -------------------------------

  /** The list as it stands when each request is answered. */
  type History = nat -> seq<Schedule>

  function Window(list: seq<Schedule>, offset: nat): seq<Schedule> {
    if offset >= |list| then [] else list[offset..if offset + PAGE_SIZE < |list| then offset + PAGE_SIZE else |list|]
  }

  ghost predicate Serves(server: Server, history: History) {
    forall n: nat, offset: nat ::
      server(n, offset) == Answered(Page(Window(history(n), offset), |history(n)|, PAGE_SIZE, offset))
  }

  /** The list keeps its length and stays in the project while it changes. */
  ghost predicate Steady(history: History, project: Id, size: nat) {
    forall n: nat :: |history(n)| == size && InProject(history(n), project)
  }

  /** Each hundred taken from the list as it stood when that hundred was read. */
  function Composite(history: History, size: nat): (xs: seq<Schedule>)
    requires forall n: nat :: |history(n)| == size
    ensures |xs| == size
  {
    seq(size, i requires 0 <= i < size => history(i / PAGE_SIZE)[i])
  }

  function UpTo(size: nat, n: nat): nat {
    if PAGE_SIZE * n < size then PAGE_SIZE * n else size
  }

  lemma CompositeWindow(history: History, size: nat, n: nat)
    requires forall m: nat :: |history(m)| == size
    requires PAGE_SIZE * n < size || n == 0
    ensures Composite(history, size)[..UpTo(size, n + 1)]
         == Composite(history, size)[..UpTo(size, n)] + Window(history(n), UpTo(size, n))
  {
    var xs, a, b := Composite(history, size), UpTo(size, n), UpTo(size, n + 1);
    assert xs[..b] == xs[..a] + xs[a..b];
    forall i | a <= i < b ensures xs[i] == history(n)[i] {
      assert i / PAGE_SIZE == n;
    }
    assert xs[a..b] == Window(history(n), a);
  }

  lemma PrefixRepeats(xs: seq<Schedule>, n: nat)
    requires n <= |xs| && !Distinct(Ids(xs[..n]))
    ensures !Distinct(Ids(xs))
  {
    assert xs == xs[..n] + xs[n..];
    JoinedDistinct(xs[..n], xs[n..]);
  }

  lemma HonestPage(server: Server, history: History, project: Id, size: nat, n: nat)
    requires Serves(server, history) && Steady(history, project, size) && (PAGE_SIZE * n < size || n == 0)
    ensures NextPage(server, project, n, UpTo(size, n))
         == if Distinct(Ids(Window(history(n), UpTo(size, n))))
            then Ok(Page(Window(history(n), UpTo(size, n)), size, PAGE_SIZE, UpTo(size, n)))
            else Refused
  {
    assert InProject(history(n), project) && |history(n)| == size;
  }

  function TotalAt(n: nat, size: nat): Option<int> {
    if n == 0 then None else Some(size)
  }

  /** A composite is returned unless it repeats an id. */
  function Outcome(xs: seq<Schedule>): Result<seq<Schedule>> {
    if AllDifferent(Ids(xs)) then Ok(xs) else Refused
  }

  /** One round of the loop when the page, if it is accepted, holds w: repeated ids are all that can refuse it. */
  lemma OneRound(server: Server, project: Id, n: nat, read: seq<Schedule>, w: seq<Schedule>, size: nat,
                 total: Option<int>)
    requires total.Some? ==> total.value == size && |read| < size
    requires NextPage(server, project, n, |read|)
          == if Distinct(Ids(w)) then Ok(Page(w, size, PAGE_SIZE, |read|)) else Refused
    requires Distinct(Ids(read))
    ensures Collect(server, project, n, read, total)
         == if !Distinct(Ids(read + w)) then Refused
            else if |read + w| < size then Collect(server, project, n + 1, read + w, Some(size))
            else Ok(read + w)
  {
    JoinedDistinct(read, w);
  }

  predicate IsRequested(size: nat, n: nat) {
    PAGE_SIZE * n < size || n == 0
  }

  function FirstWindows(xs: seq<Schedule>, n: nat): seq<Schedule> {
    xs[..UpTo(|xs|, n)]
  }

  /** What is returned once the windows before request n have been read. */
  function ReadOn(server: Server, project: Id, xs: seq<Schedule>, n: nat): Result<seq<Schedule>> {
    if IsRequested(|xs|, n) then Collect(server, project, n, FirstWindows(xs, n), TotalAt(n, |xs|)) else Refused
  }

  /** A request is refused if it repeats an id; otherwise the composite grows by its window. */
  ghost predicate Grows(xs: seq<Schedule>, n: nat, r: Result<seq<Schedule>>, next: Result<seq<Schedule>>) {
    r == if !Distinct(Ids(FirstWindows(xs, n + 1))) then Refused
         else if IsRequested(|xs|, n + 1) then next
         else Ok(xs)
  }

  lemma CollectGrows(server: Server, history: History, project: Id, xs: seq<Schedule>, n: nat)
    requires Serves(server, history) && Steady(history, project, |xs|) && xs == Composite(history, |xs|)
    requires IsRequested(|xs|, n) && Distinct(Ids(FirstWindows(xs, n)))
    ensures Grows(xs, n, ReadOn(server, project, xs, n), ReadOn(server, project, xs, n + 1))
  {
    CompositeWindow(history, |xs|, n);
    HonestPage(server, history, project, |xs|, n);
    OneRound(server, project, n, FirstWindows(xs, n), Window(history(n), UpTo(|xs|, n)), |xs|, TotalAt(n, |xs|));
    assert xs[..|xs|] == xs;
  }

  lemma LastGrowth(xs: seq<Schedule>, n: nat, r: Result<seq<Schedule>>, next: Result<seq<Schedule>>)
    requires Grows(xs, n, r, next)
    requires next == Outcome(xs) || !IsRequested(|xs|, n + 1) || !Distinct(Ids(FirstWindows(xs, n + 1)))
    ensures r == Outcome(xs)
  {
    if !Distinct(Ids(FirstWindows(xs, n + 1))) {
      PrefixRepeats(xs, UpTo(|xs|, n + 1));
    } else if !IsRequested(|xs|, n + 1) {
      assert FirstWindows(xs, n + 1) == xs;
    }
  }

  lemma {:induction false} ReadToTheEnd(server: Server, history: History, project: Id, xs: seq<Schedule>, n: nat)
    requires Serves(server, history) && Steady(history, project, |xs|) && xs == Composite(history, |xs|)
    requires IsRequested(|xs|, n) && Distinct(Ids(FirstWindows(xs, n)))
    ensures ReadOn(server, project, xs, n) == Outcome(xs)
    decreases |xs| - UpTo(|xs|, n), if n == 0 then 1 else 0
  {
    CollectGrows(server, history, project, xs, n);
    if IsRequested(|xs|, n + 1) && Distinct(Ids(FirstWindows(xs, n + 1))) {
      ReadToTheEnd(server, history, project, xs, n + 1);
    }
    LastGrowth(xs, n, ReadOn(server, project, xs, n), ReadOn(server, project, xs, n + 1));
  }

  /**
   With an honest server and an unchanging number of schedules, what is returned is the composite of
   the lists that were read, and a refusal means that this composite repeats an id.
   */
  lemma CompositeReturned(server: Server, history: History, project: Id, size: nat)
    requires Serves(server, history) && Steady(history, project, size)
    ensures Collect(server, project, 0, [], None) == Outcome(Composite(history, size))
  {
    var xs := Composite(history, size);
    assert FirstWindows(xs, 0) == [];
    ReadToTheEnd(server, history, project, xs, 0);
  }

  /** A list that does not change is returned whole and in order. */
  lemma FixedListReturned(server: Server, list: seq<Schedule>, project: Id)
    requires Serves(server, (n: nat) => list) && InProject(list, project)
    ensures Collect(server, project, 0, [], None) == Outcome(list)
  {
    var history := (n: nat) => list;
    CompositeReturned(server, history, project, |list|);
    assert Composite(history, |list|) == list;
  }

  // ---- When a changed list goes unnoticed -------------------------------------------------

  /** Every list that is returned is one the server really had at some request. */
  ghost predicate NeverMixes(project: Id, size: nat) {
    forall server: Server, history: History ::
      Serves(server, history) && Steady(history, project, size) && Collect(server, project, 0, [], None).Ok?
      ==> exists n: nat :: Collect(server, project, 0, [], None) == Ok(history(n))
  }

  function Numbered(project: Id, first: nat, size: nat): (xs: seq<Schedule>)
    ensures |xs| == size
  {
    seq(size, i requires 0 <= i < size => Schedule(first + i, project, "ACTIVE", ""))
  }

  /** The first schedule is deleted and another one added right after the first page was read. */
  function Shifting(project: Id, size: nat): History {
    (n: nat) => if n == 0 then Numbered(project, 0, size) else Numbered(project, 1, size)
  }

  function HonestServer(history: History): Server {
    (n: nat, offset: nat) => Answered(Page(Window(history(n), offset), |history(n)|, PAGE_SIZE, offset))
  }

  lemma ShiftSteady(project: Id, size: nat)
    ensures Steady(Shifting(project, size), project, size)
    ensures Serves(HonestServer(Shifting(project, size)), Shifting(project, size))
  {
    var history := Shifting(project, size);
    forall n: nat ensures |history(n)| == size && InProject(history(n), project) {
      assert history(n) == Numbered(project, if n == 0 then 0 else 1, size);
    }
  }

  lemma ShiftedIds(project: Id, size: nat)
    requires size > PAGE_SIZE && Steady(Shifting(project, size), project, size)
    ensures var xs := Composite(Shifting(project, size), size);
            Distinct(Ids(xs)) && xs[0].id == 0 && xs[PAGE_SIZE].id == PAGE_SIZE + 1
  {
    var history := Shifting(project, size);
    var xs := Composite(history, size);
    forall i | 0 <= i < size ensures Ids(xs)[i] == if i < PAGE_SIZE then i else i + 1 {
      assert i / PAGE_SIZE == 0 <==> i < PAGE_SIZE;
      assert history(i / PAGE_SIZE) == Numbered(project, if i < PAGE_SIZE then 0 else 1, size);
    }
    assert xs[0].id == Ids(xs)[0] && xs[PAGE_SIZE].id == Ids(xs)[PAGE_SIZE];
  }

  lemma ShiftMixes(project: Id, size: nat)
    requires size > PAGE_SIZE
    ensures Serves(HonestServer(Shifting(project, size)), Shifting(project, size))
    ensures Steady(Shifting(project, size), project, size)
    ensures var r := Collect(HonestServer(Shifting(project, size)), project, 0, [], None);
            r.Ok? && forall n: nat :: r.value != Shifting(project, size)(n)
  {
    var history := Shifting(project, size);
    ShiftSteady(project, size);
    ShiftedIds(project, size);
    CompositeReturned(HonestServer(history), history, project, size);
    forall n: nat ensures Composite(history, size) != history(n) {
      assert history(n) == Numbered(project, if n == 0 then 0 else 1, size);
      assert history(n)[PAGE_SIZE].id - history(n)[0].id == PAGE_SIZE;
    }
  }

  /**
   The comment above the loader promises no incomplete result when the list changes while it is read.
   That holds for projects that fit on one page, and for no larger ones.
   */
  lemma NeverMixesExactlyOnOnePage(project: Id, size: nat)
    ensures NeverMixes(project, size) <==> size <= 100
  {
    if size <= PAGE_SIZE {
      forall server: Server, history: History
        | Serves(server, history) && Steady(history, project, size) && Collect(server, project, 0, [], None).Ok?
        ensures exists n: nat :: Collect(server, project, 0, [], None) == Ok(history(n))
      {
        CompositeReturned(server, history, project, size);
        assert Composite(history, size) == history(0);
      }
    } else {
      ShiftMixes(project, size);
      var history := Shifting(project, size);
      var r := Collect(HonestServer(history), project, 0, [], None);
      assert forall n: nat :: r != Ok(history(n));
    }
  }

  /** While the announced number holds, a page that is not the last one is full. */
  lemma FullPage(server: Server, history: History, project: Id, size: nat, n: nat)
    requires Serves(server, history) && |history(n)| == size && PAGE_SIZE * (n + 1) <= size
    requires NextPage(server, project, n, PAGE_SIZE * n).Ok?
    ensures var page := NextPage(server, project, n, PAGE_SIZE * n).value;
      |page.schedules| == PAGE_SIZE && page.total == size
  {
  }

  /** As soon as a request is answered with another number of schedules than the first one, the read fails. */
  lemma {:induction false} LengthChangeNoticed(server: Server, history: History, project: Id, size: nat, k: nat,
                                               n: nat, items: seq<Schedule>)
    requires Serves(server, history) && PAGE_SIZE * k < size
    requires forall j: nat | j < k :: |history(j)| == size
    requires |history(k)| != size && 0 < k && n <= k && |items| == PAGE_SIZE * n
    ensures Collect(server, project, n, items, TotalAt(n, size)) == Refused
    decreases k - n
  {
    var next := NextPage(server, project, n, |items|);
    if n < k && next.Ok? {
      FullPage(server, history, project, size, n);
      LengthChangeNoticed(server, history, project, size, k, n + 1, items + next.value.schedules);
    }
  }
}
