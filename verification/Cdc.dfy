/** The change log of cdc_batch.py and a polling consumer that regroups batches,
    as steps that interleave in any order. */
module Cdc {
  import opened Wrappers

  datatype Operation = BatchStart | BatchEnd | Change(kind: string)

  /** A batch id that is absent or empty counts as none. */
  datatype Event = Event(seqNo: int, op: Operation, table: string, key: string, batch: Option<string>)

  function BatchOf(e: Event): Option<string> {
    if e.batch == Some("") then None else e.batch
  }

  // ---- The log ----

  /** `append` overwrites the sequence number. */
  function Append(log: seq<Event>, e: Event): seq<Event> {
    log + [e.(seqNo := |log| + 1)]
  }

  predicate Numbered(log: seq<Event>) {
    forall i :: 0 <= i < |log| ==> log[i].seqNo == i + 1
  }

  function From(log: seq<Event>, start: int): seq<Event> {
    if log == [] then []
    else
      var n := |log| - 1;
      From(log[..n], start) + if log[n].seqNo >= start then [log[n]] else []
  }

  function GetEvents(log: seq<Event>, start: int, limit: nat): seq<Event> {
    var events := From(log, start);
    if |events| > limit then events[..limit] else events
  }

  const PageSize: nat := 1000

  // ---- The consumer ----

  /** None stands for an absent or empty filter. */
  datatype Filter = Filter(tables: Option<set<string>>, operations: Option<set<Operation>>, groupBatches: bool)

  datatype Consumer = Consumer(
    current: nat,
    fetched: seq<Event>,
    delivered: seq<Event>,
    buffer: map<string, seq<Event>>,
    batches: seq<(string, seq<Event>)>)

  predicate ShouldConsume(f: Filter, e: Event) {
    && (f.tables.Some? ==> e.table in f.tables.value)
    && (f.operations.Some? ==> e.op in f.operations.value)
  }

  /** The regrouping buffer and the completed batches after one more event. */
  function Regroup(buffer: map<string, seq<Event>>, batches: seq<(string, seq<Event>)>, id: string, e: Event)
    : (map<string, seq<Event>>, seq<(string, seq<Event>)>)
  {
    match e.op
    case BatchStart => (buffer[id := []], batches)
    case BatchEnd => (buffer - {id}, batches + [(id, if id in buffer then buffer[id] else [])])
    case Change(_) => (if id in buffer then buffer[id := buffer[id] + [e]] else buffer, batches)
  }

  function ProcessEvent(f: Filter, c: Consumer, e: Event): Consumer {
    var c1 := c.(delivered := c.delivered + [e]);
    if f.groupBatches && BatchOf(e).Some? then
      var (buffer, batches) := Regroup(c.buffer, c.batches, BatchOf(e).value, e);
      c1.(buffer := buffer, batches := batches)
    else c1
  }

  // ---- Steps ----

  datatype State = State(log: seq<Event>, consumer: Consumer)

  datatype Action = AppendEvent(e: Event) | Fetch | ProcessNext

  /** A page is fetched once the last one is used up; its events are then processed one at a time. */
  predicate Enabled(s: State, a: Action) {
    match a
    case AppendEvent(_) => true
    case Fetch => s.consumer.fetched == []
    case ProcessNext => s.consumer.fetched != [] && s.consumer.fetched[0].seqNo >= 0
  }

  function Next(f: Filter, s: State, a: Action): State
    requires Enabled(s, a)
  {
    match a
    case AppendEvent(e) => s.(log := Append(s.log, e))
    case Fetch => s.(consumer := s.consumer.(fetched := GetEvents(s.log, s.consumer.current + 1, PageSize)))
    case ProcessNext =>
      var e, c := s.consumer.fetched[0], s.consumer.(fetched := s.consumer.fetched[1..]);
      var c1 := if ShouldConsume(f, e) then ProcessEvent(f, c, e) else c;
      s.(consumer := c1.(current := e.seqNo))
  }

  ghost predicate Run(f: Filter, s: State, actions: seq<Action>, s': State)
    decreases |actions|
  {
    if actions == [] then s == s'
    else Enabled(s, actions[0]) && Run(f, Next(f, s, actions[0]), actions[1..], s')
  }

  function Fresh(log: seq<Event>, start: nat): State {
    State(log, Consumer(start, [], [], map[], []))
  }

  // ---- What a consumer should have seen ----

  function Accepted(f: Filter, events: seq<Event>): seq<Event> {
    if events == [] then []
    else
      var n := |events| - 1;
      Accepted(f, events[..n]) + if ShouldConsume(f, events[n]) then [events[n]] else []
  }

  /** The places of the accepted events. */
  function AcceptedPlaces(f: Filter, events: seq<Event>): seq<nat> {
    if events == [] then []
    else
      var n := |events| - 1;
      AcceptedPlaces(f, events[..n]) + if ShouldConsume(f, events[n]) then [n] else []
  }

  lemma {:induction false} PlacesAre(f: Filter, events: seq<Event>)
    ensures var places := AcceptedPlaces(f, events);
            && (forall k :: 0 <= k < |places| ==> places[k] < |events|)
            && (forall j, k :: 0 <= j < k < |places| ==> places[j] < places[k])
            && forall i :: 0 <= i < |events| ==> (i in places <==> ShouldConsume(f, events[i]))
    decreases |events|
  {
    hide ShouldConsume;
    if events != [] {
      var n := |events| - 1;
      PlacesAre(f, events[..n]);
      assert forall i :: 0 <= i < n ==> events[..n][i] == events[i];
      assert n !in AcceptedPlaces(f, events[..n]);
    }
  }

  lemma {:induction false} AcceptedAt(f: Filter, events: seq<Event>)
    ensures |Accepted(f, events)| == |AcceptedPlaces(f, events)|
    ensures forall k :: 0 <= k < |AcceptedPlaces(f, events)| ==>
              && AcceptedPlaces(f, events)[k] < |events|
              && Accepted(f, events)[k] == events[AcceptedPlaces(f, events)[k]]
    decreases |events|
  {
    hide ShouldConsume;
    if events != [] {
      AcceptedAt(f, events[..|events| - 1]);
    }
  }

  /** An event is accepted exactly when its table and its operation are asked for, if any are; order is kept. */
  lemma AcceptedAre(f: Filter, events: seq<Event>) returns (places: seq<nat>)
    ensures |Accepted(f, events)| == |places|
    ensures forall k :: 0 <= k < |places| ==> places[k] < |events| && Accepted(f, events)[k] == events[places[k]]
    ensures forall j, k :: 0 <= j < k < |places| ==> places[j] < places[k]
    ensures forall i :: 0 <= i < |events| ==>
              (i in places <==> (f.tables == None || events[i].table in f.tables.value)
                                && (f.operations == None || events[i].op in f.operations.value))
  {
    hide Accepted, AcceptedPlaces;
    places := AcceptedPlaces(f, events);
    PlacesAre(f, events);
    AcceptedAt(f, events);
  }

  /** The changes of one batch, in order. */
  function Members(events: seq<Event>, id: string): seq<Event> {
    if events == [] then []
    else
      var n := |events| - 1;
      Members(events[..n], id) + if BatchOf(events[n]) == Some(id) && events[n].op.Change? then [events[n]] else []
  }

  predicate MarkerOf(e: Event, id: string) {
    BatchOf(e) == Some(id) && !e.op.Change?
  }

  /** The batch's last marker is a start, at position i. */
  predicate OpenAt(events: seq<Event>, i: nat, id: string) {
    && i < |events| && MarkerOf(events[i], id) && events[i].op.BatchStart?
    && forall j :: i < j < |events| ==> !MarkerOf(events[j], id)
  }

  ghost predicate IsOpen(events: seq<Event>, id: string) {
    exists i :: 0 <= i < |events| && OpenAt(events, i, id)
  }

  /** The events between the batch's start and now; none if it is not open. */
  ghost function Between(events: seq<Event>, id: string): seq<Event> {
    if IsOpen(events, id) then
      var i :| 0 <= i < |events| && OpenAt(events, i, id);
      Members(events[i + 1..], id)
    else []
  }

  /** One entry for every end marker, in order: the batch's own events since its start. */
  ghost function Completed(events: seq<Event>): seq<(string, seq<Event>)> {
    if events == [] then []
    else
      var n := |events| - 1;
      Completed(events[..n])
      + if BatchOf(events[n]).Some? && events[n].op.BatchEnd?
        then [(BatchOf(events[n]).value, Between(events[..n], BatchOf(events[n]).value))] else []
  }

  // ---- The invariant ----

  ghost predicate BufferOk(buffer: map<string, seq<Event>>, events: seq<Event>) {
    forall id :: (id in buffer <==> IsOpen(events, id)) && (id in buffer ==> buffer[id] == Between(events, id))
  }

  ghost predicate Grouped(f: Filter, c: Consumer) {
    if f.groupBatches then BufferOk(c.buffer, c.delivered) && c.batches == Completed(c.delivered)
    else c.buffer == map[] && c.batches == []
  }

  ghost predicate Inv(f: Filter, start: nat, s: State) {
    var c := s.consumer;
    && Numbered(s.log)
    && start <= c.current && c.current + |c.fetched| <= |s.log|
    && c.fetched == s.log[c.current..c.current + |c.fetched|]
    && c.delivered == Accepted(f, s.log[start..c.current])
    && Grouped(f, c)
  }

  lemma OpenUnique(events: seq<Event>, i: nat, j: nat, id: string)
    requires OpenAt(events, i, id) && OpenAt(events, j, id)
    ensures i == j
  {
  }

  lemma BetweenIs(events: seq<Event>, i: nat, id: string)
    requires OpenAt(events, i, id)
    ensures IsOpen(events, id) && Between(events, id) == Members(events[i + 1..], id)
  {
    var k :| 0 <= k < |events| && OpenAt(events, k, id) && Between(events, id) == Members(events[k + 1..], id);
    OpenUnique(events, i, k, id);
  }

  lemma OpenAtExtends(events: seq<Event>, e: Event, i: nat, id: string)
    requires !MarkerOf(e, id)
    ensures OpenAt(events + [e], i, id) <==> OpenAt(events, i, id)
  {
    var more := events + [e];
    assert more[|events|] == e && forall j :: 0 <= j < |events| ==> more[j] == events[j];
  }

  /** An event that is no marker of the batch leaves it open or closed as it was. */
  lemma OpenExtends(events: seq<Event>, e: Event, id: string)
    requires !MarkerOf(e, id)
    ensures IsOpen(events + [e], id) <==> IsOpen(events, id)
    ensures Between(events + [e], id)
            == Between(events, id) + if IsOpen(events, id) && BatchOf(e) == Some(id) then [e] else []
  {
    hide Between, OpenAt;
    var more := events + [e];
    forall i: nat ensures OpenAt(more, i, id) <==> OpenAt(events, i, id) {
      OpenAtExtends(events, e, i, id);
    }
    OpenInside(events, id);
    OpenInside(more, id);
    if IsOpen(events, id) {
      var i :| 0 <= i < |events| && OpenAt(events, i, id);
      BetweenIs(events, i, id);
      BetweenIs(more, i, id);
      assert more[i + 1..] == events[i + 1..] + [e];
      assert more[i + 1..][..|events| - i - 1] == events[i + 1..];
      assert Members(more[i + 1..], id) == Members(events[i + 1..], id) + if BatchOf(e) == Some(id) then [e] else [];
    } else {
      NothingBetween(events, id);
      NothingBetween(more, id);
    }
  }

  lemma OpenInside(events: seq<Event>, id: string)
    ensures forall i: nat :: OpenAt(events, i, id) ==> i < |events|
  {
  }

  lemma NothingBetween(events: seq<Event>, id: string)
    requires !IsOpen(events, id)
    ensures Between(events, id) == []
  {
  }

  lemma StartOpens(events: seq<Event>, e: Event, id: string)
    requires BatchOf(e) == Some(id) && e.op.BatchStart?
    ensures IsOpen(events + [e], id) && Between(events + [e], id) == []
  {
    hide Between;
    var more := events + [e];
    assert OpenAt(more, |events|, id);
    BetweenIs(more, |events|, id);
    assert more[|events| + 1..] == [];
  }

  lemma EndCloses(events: seq<Event>, e: Event, id: string)
    requires BatchOf(e) == Some(id) && e.op.BatchEnd?
    ensures !IsOpen(events + [e], id)
  {
    var more := events + [e];
    forall i | 0 <= i < |more| ensures !OpenAt(more, i, id) {
      assert MarkerOf(more[|events|], id);
    }
  }

  /** One more delivered event keeps the buffer and the completed batches right. */
  lemma ProcessKeeps(f: Filter, c: Consumer, e: Event)
    requires Grouped(f, c)
    ensures Grouped(f, ProcessEvent(f, c, e))
  {
    hide IsOpen, Between, Completed;
    var events := c.delivered;
    if f.groupBatches {
      CompletedSnoc(events, e);
      var c' := ProcessEvent(f, c, e);
      forall id ensures (id in c'.buffer <==> IsOpen(events + [e], id))
                        && (id in c'.buffer ==> c'.buffer[id] == Between(events + [e], id))
      {
        if !MarkerOf(e, id) {
          OpenExtends(events, e, id);
        } else if e.op.BatchStart? {
          StartOpens(events, e, id);
        } else {
          EndCloses(events, e, id);
        }
      }
      if BatchOf(e).Some? && e.op.BatchEnd? && BatchOf(e).value !in c.buffer {
        NothingBetween(events, BatchOf(e).value);
      }
      assert c'.batches == Completed(events + [e]);
    }
  }

  lemma CompletedSnoc(events: seq<Event>, e: Event)
    ensures Completed(events + [e]) == Completed(events)
            + if BatchOf(e).Some? && e.op.BatchEnd? then [(BatchOf(e).value, Between(events, BatchOf(e).value))] else []
  {
    assert (events + [e])[..|events|] == events;
  }

  lemma {:induction false} FromIsSuffix(log: seq<Event>, k: nat)
    requires Numbered(log) && k <= |log|
    ensures From(log, k + 1) == log[k..]
    decreases |log|
  {
    if log != [] {
      var n := |log| - 1;
      if k <= n {
        FromIsSuffix(log[..n], k);
        assert log[..n][k..] + [log[n]] == log[k..];
      } else {
        NoneFrom(log, k + 1);
      }
    }
  }

  lemma {:induction false} NoneFrom(log: seq<Event>, start: int)
    requires forall i :: 0 <= i < |log| ==> log[i].seqNo < start
    ensures From(log, start) == []
    decreases |log|
  {
    if log != [] {
      NoneFrom(log[..|log| - 1], start);
    }
  }

  lemma AppendKeeps(f: Filter, start: nat, s: State, e: Event)
    requires Inv(f, start, s)
    ensures Inv(f, start, Next(f, s, AppendEvent(e)))
  {
    hide Grouped, Accepted;
    var c, log := s.consumer, Append(s.log, e);
    assert log[start..c.current] == s.log[start..c.current];
    assert log[c.current..c.current + |c.fetched|] == c.fetched;
  }

  lemma FetchKeeps(f: Filter, start: nat, s: State)
    requires Inv(f, start, s) && Enabled(s, Fetch)
    ensures Inv(f, start, Next(f, s, Fetch))
  {
    hide Grouped, Accepted;
    FromIsSuffix(s.log, s.consumer.current);
    GroupedIgnores(f, s.consumer, Next(f, s, Fetch).consumer);
  }

  lemma ProcessNextKeeps(f: Filter, start: nat, s: State)
    requires Inv(f, start, s) && Enabled(s, ProcessNext)
    ensures Inv(f, start, Next(f, s, ProcessNext))
  {
    hide Grouped, ProcessEvent, ShouldConsume, Accepted;
    var c, e := s.consumer, s.consumer.fetched[0];
    var rest := c.(fetched := c.fetched[1..]);
    assert e == s.log[c.current] && e.seqNo == c.current + 1;
    GroupedIgnores(f, c, rest);
    GroupedIgnores(f, c, rest.(current := e.seqNo));
    ProcessKeeps(f, rest, e);
    ProcessFrame(f, rest, e);
    var c1 := ProcessEvent(f, rest, e);
    GroupedIgnores(f, c1, c1.(current := e.seqNo));
    AcceptedSnoc(f, s.log[start..c.current], e);
    assert s.log[start..c.current + 1] == s.log[start..c.current] + [e];
    assert rest.fetched == s.log[c.current + 1..c.current + |c.fetched|];
  }

  lemma StepKeeps(f: Filter, start: nat, s: State, a: Action)
    requires Inv(f, start, s) && Enabled(s, a)
    ensures Inv(f, start, Next(f, s, a))
  {
    hide Inv, Next;
    match a {
      case AppendEvent(e) => AppendKeeps(f, start, s, e);
      case Fetch => FetchKeeps(f, start, s);
      case ProcessNext => ProcessNextKeeps(f, start, s);
    }
  }

  lemma AcceptedSnoc(f: Filter, events: seq<Event>, e: Event)
    ensures Accepted(f, events + [e]) == Accepted(f, events) + if ShouldConsume(f, e) then [e] else []
  {
    assert (events + [e])[..|events|] == events;
  }

  /** Grouping looks at neither the position nor the page. */
  lemma GroupedIgnores(f: Filter, c: Consumer, c': Consumer)
    requires c' == c.(current := c'.current, fetched := c'.fetched) && Grouped(f, c)
    ensures Grouped(f, c')
  {
  }

  lemma ProcessFrame(f: Filter, c: Consumer, e: Event)
    ensures var c' := ProcessEvent(f, c, e);
            c'.current == c.current && c'.fetched == c.fetched && c'.delivered == c.delivered + [e]
  {
  }

  lemma {:induction false} RunKeeps(f: Filter, start: nat, s: State, actions: seq<Action>, s': State)
    requires Inv(f, start, s) && Run(f, s, actions, s')
    ensures Inv(f, start, s')
    decreases |actions|
  {
    hide Inv, Next, Enabled;
    if actions != [] {
      StepKeeps(f, start, s, actions[0]);
      RunKeeps(f, start, Next(f, s, actions[0]), actions[1..], s');
    }
  }

  lemma FreshIsFine(f: Filter, log: seq<Event>, start: nat)
    requires Numbered(log) && start <= |log|
    ensures Inv(f, start, Fresh(log, start))
  {
    assert log[start..start] == [];
    forall id ensures !IsOpen([], id) {}
  }

  /** Every interleaving of appends and polls: the callback has seen exactly the accepted events up to the
      consumer's position, once and in order, and the batch callback one call for each end marker among
      them, with that batch's own events since its start. */
  lemma DeliveredOnceInOrder(f: Filter, log: seq<Event>, start: nat, actions: seq<Action>, s: State)
    requires Numbered(log) && start <= |log| && Run(f, Fresh(log, start), actions, s)
    ensures start <= s.consumer.current <= |s.log|
    ensures s.consumer.delivered == Accepted(f, s.log[start..s.consumer.current])
    ensures f.groupBatches ==> s.consumer.batches == Completed(s.consumer.delivered)
  {
    hide Run, Completed, Accepted;
    FreshIsFine(f, log, start);
    RunKeeps(f, start, Fresh(log, start), actions, s);
  }

  /** The events a run appends. */
  function AppendedBy(actions: seq<Action>): seq<Event>
    decreases |actions|
  {
    if actions == [] then []
    else (if actions[0].AppendEvent? then [actions[0].e] else []) + AppendedBy(actions[1..])
  }

  /** The log holds every event appended, in order, as it was given but for its number, which is its place. */
  lemma {:induction false} LogIsAppended(f: Filter, s: State, actions: seq<Action>, s': State)
    requires Run(f, s, actions, s') && Numbered(s.log)
    ensures var events := s.log + AppendedBy(actions);
            && |s'.log| == |events|
            && forall i :: 0 <= i < |events| ==> s'.log[i] == events[i].(seqNo := i + 1)
    decreases |actions|
  {
    hide ProcessEvent, ShouldConsume, GetEvents;
    if actions != [] {
      var s1 := Next(f, s, actions[0]);
      LogIsAppended(f, s1, actions[1..], s');
    }
  }

  lemma {:induction false} AcceptedAll(f: Filter, events: seq<Event>)
    requires f.tables.None? && f.operations.None?
    ensures Accepted(f, events) == events
    decreases |events|
  {
    if events != [] {
      AcceptedAll(f, events[..|events| - 1]);
      assert events[..|events| - 1] + [events[|events| - 1]] == events;
    }
  }

  /** Without filters that is the log itself. */
  lemma UnfilteredSeesTheLog(f: Filter, log: seq<Event>, start: nat, actions: seq<Action>, s: State)
    requires f.tables.None? && f.operations.None?
    requires Numbered(log) && start <= |log| && Run(f, Fresh(log, start), actions, s)
    ensures start <= s.consumer.current <= |s.log| && s.consumer.delivered == s.log[start..s.consumer.current]
  {
    hide Run, Accepted;
    DeliveredOnceInOrder(f, log, start, actions, s);
    AcceptedAll(f, s.log[start..s.consumer.current]);
  }

  /** A batch callback's events when the batch is bracketed: those between its start and its end. */
  lemma BracketedBatch(events: seq<Event>, i: nat, j: nat, id: string)
    requires i < j < |events| && MarkerOf(events[i], id) && events[i].op.BatchStart?
    requires MarkerOf(events[j], id) && events[j].op.BatchEnd?
    requires forall k :: i < k < j ==> !MarkerOf(events[k], id)
    ensures (id, Members(events[i + 1..j], id)) in Completed(events)
  {
    hide Between, Completed;
    assert OpenAt(events[..j], i, id);
    BetweenIs(events[..j], i, id);
    assert events[..j][i + 1..] == events[i + 1..j];
    CompletedSnoc(events[..j], events[j]);
    assert events[..j] + [events[j]] == events[..j + 1];
    CompletedPrefix(events, j + 1);
    var k := |Completed(events[..j])|;
    assert Completed(events)[k] == Completed(events[..j + 1])[k] == (id, Members(events[i + 1..j], id));
  }

  lemma {:induction false} CompletedPrefix(events: seq<Event>, n: nat)
    requires n <= |events|
    ensures Completed(events[..n]) <= Completed(events)
    decreases |events|
  {
    if n == |events| {
      assert events[..n] == events;
    } else {
      CompletedPrefix(events[..|events| - 1], n);
      assert events[..|events| - 1][..n] == events[..n];
    }
  }

  /** A consumer behind the log always fetches at least one more event, and processing moves it on by one. */
  lemma PollAdvances(f: Filter, start: nat, s: State)
    requires Inv(f, start, s) && s.consumer.current < |s.log|
    ensures s.consumer.fetched == [] ==> Next(f, s, Fetch).consumer.fetched != []
    ensures s.consumer.fetched != [] ==>
              Enabled(s, ProcessNext) && Next(f, s, ProcessNext).consumer.current == s.consumer.current + 1
  {
    hide Accepted, Grouped, ProcessEvent, ShouldConsume;
    FromIsSuffix(s.log, s.consumer.current);
  }

  // ---- The source's objects ----

  class BatchCDCLog {
    var sequence: nat
    var events: seq<Event>

    ghost predicate Valid()
      reads this
    {
      sequence == |events| && Numbered(events)
    }

    constructor ()
      ensures Valid() && events == []
    {
      sequence, events := 0, [];
    }

    /** `append` once the rate limiter has let the event through. */
    method AppendOne(e: Event) returns (n: nat)
      requires Valid()
      modifies this
      ensures Valid() && events == Append(old(events), e) && n == |events|
    {
      sequence := sequence + 1;
      events := events + [e.(seqNo := sequence)];
      return sequence;
    }

    method Fetch(start: int, limit: nat) returns (page: seq<Event>)
      ensures page == GetEvents(events, start, limit)
    {
      page := [];
      var i := 0;
      while i < |events|
        invariant i <= |events| && page == From(events[..i], start)
      {
        assert events[..i + 1][..i] == events[..i];
        if events[i].seqNo >= start {
          page := page + [events[i]];
        }
        i := i + 1;
      }
      assert events[..i] == events;
      if |page| > limit {
        page := page[..limit];
      }
    }
  }

  class BatchCDCConsumer {
    const filter: Filter
    var current: nat
    var delivered: seq<Event>
    var buffer: map<string, seq<Event>>
    var batches: seq<(string, seq<Event>)>

    ghost function View(fetched: seq<Event>): Consumer
      reads this
    {
      Consumer(current, fetched, delivered, buffer, batches)
    }

    constructor (filter: Filter, start: nat)
      ensures View([]) == Consumer(start, [], [], map[], []) && this.filter == filter
    {
      this.filter, current := filter, start;
      delivered, buffer, batches := [], map[], [];
    }

    method ProcessBatchEvent(e: Event, id: string)
      requires BatchOf(e) == Some(id) && filter.groupBatches
      modifies this
      ensures View([]) == ProcessEvent(filter, old(View([])), e)
    {
      match e.op {
        case BatchStart =>
          buffer := buffer[id := []];
          delivered := delivered + [e];
        case BatchEnd =>
          var batchEvents := if id in buffer then buffer[id] else [];
          buffer := buffer - {id};
          batches := batches + [(id, batchEvents)];
          delivered := delivered + [e];
        case Change(_) =>
          if id in buffer {
            buffer := buffer[id := buffer[id] + [e]];
          }
          delivered := delivered + [e];
      }
    }

    /** One page of `_poll`, whose events are processed in order. */
    method ProcessPage(page: seq<Event>, ghost log: seq<Event>)
      requires forall i :: 0 <= i < |page| ==> page[i].seqNo >= 0
      modifies this
      ensures exists actions ::
                (forall i :: 0 <= i < |actions| ==> actions[i] == ProcessNext)
                && Run(filter, State(log, old(View(page))), actions, State(log, View([])))
    {
      ghost var actions: seq<Action> := [];
      var i := 0;
      assert page[0..] == page;
      while i < |page|
        invariant i <= |page|
        invariant forall k :: 0 <= k < |actions| ==> actions[k] == ProcessNext
        invariant Run(filter, State(log, old(View(page))), actions, State(log, View(page[i..])))
      {
        ghost var before := State(log, View(page[i..]));
        var e := page[i];
        if ShouldConsume(filter, e) {
          if filter.groupBatches && BatchOf(e).Some? {
            ProcessBatchEvent(e, BatchOf(e).value);
          } else {
            delivered := delivered + [e];
          }
        }
        current := e.seqNo;
        assert page[i..][1..] == page[i + 1..];
        assert Next(filter, before, ProcessNext) == State(log, View(page[i + 1..]));
        RunSnoc(filter, State(log, old(View(page))), actions, before, ProcessNext);
        actions := actions + [ProcessNext];
        i := i + 1;
      }
      assert page[i..] == [];
    }
  }

  lemma {:induction false} RunSnoc(f: Filter, s: State, actions: seq<Action>, s': State, a: Action)
    requires Run(f, s, actions, s') && Enabled(s', a)
    ensures Run(f, s, actions + [a], Next(f, s', a))
    decreases |actions|
  {
    hide Next, Enabled;
    if actions == [] {
      assert actions + [a] == [a];
    } else {
      assert (actions + [a])[1..] == actions[1..] + [a];
      RunSnoc(f, Next(f, s, actions[0]), actions[1..], s', a);
    }
  }
}
