/** The hash-chained audit log: verification, appends and tamper evidence.

    The keyed hash is a parameter that prints 64 lower-case hexadecimal digits.  No
    such hash is injective, so a property that needs it assumes only that the
    materials of the logs it speaks of do not collide. */
module AuditChain {
  import opened Options

  datatype EventInput = EventInput(
    eventId: string,
    timestamp: int,
    eventType: string,
    correlationId: string,
    actorId: Option<string>,
    guildId: Option<string>,
    channelId: Option<string>,
    functionId: Option<string>,
    targetPseudonym: Option<string>,
    outcome: string,
    payload: map<string, string>)

  /** What the hash covers. */
  datatype Material = Material(input: EventInput, sequence: int, previousHash: string)

  datatype Event = Event(material: Material, eventHash: string)

  type Mac = Material -> string

  datatype Reason =
    | NonContiguousSequence
    | PreviousHashMismatch
    | EventHmacMismatch
    | StateSequenceMismatch
    | StateHashMismatch
    | StateMissing

  datatype Verification = Verification(
    valid: bool,
    eventCount: nat,
    lastSequence: nat,
    lastHash: string,
    failureSequence: Option<int>,
    reason: Option<Reason>)

  function Zeros(n: nat): string {
    if n == 0 then "" else Zeros(n - 1) + "0"
  }

  const GENESIS: string := Zeros(64)

  predicate HexDigest(s: string) {
    |s| == 64 && forall c <- s :: '0' <= c <= '9' || 'a' <= c <= 'f'
  }

  // ---------- one chain ----------

  /** The hash the event at index `i` must name as its predecessor. */
  function HashBefore(events: seq<Event>, i: nat): string
    requires i <= |events|
  {
    if i == 0 then GENESIS else events[i - 1].eventHash
  }

  predicate Authentic(mac: Mac, e: Event) {
    HexDigest(e.eventHash) && mac(e.material) == e.eventHash
  }

  predicate LinkedAt(mac: Mac, events: seq<Event>, i: nat)
    requires i < |events|
  {
    && events[i].material.sequence == i + 1
    && events[i].material.previousHash == HashBefore(events, i)
    && Authentic(mac, events[i])
  }

  /** Every event links to the one before it, from genesis. */
  predicate Chained(mac: Mac, events: seq<Event>) {
    forall i :: 0 <= i < |events| ==> LinkedAt(mac, events, i)
  }

  /** Why the event at index `i` does not continue the chain. */
  function Fault(mac: Mac, events: seq<Event>, i: nat): Reason
    requires i < |events| && !LinkedAt(mac, events, i)
  {
    if events[i].material.sequence != i + 1 then NonContiguousSequence
    else if events[i].material.previousHash != HashBefore(events, i) then PreviousHashMismatch
    else EventHmacMismatch
  }

  predicate StateAgrees(lastSequence: nat, lastHash: string, stateSequence: Option<int>, stateHash: Option<string>) {
    && (stateSequence.Some? ==> stateSequence.value == lastSequence)
    && (stateHash.Some? ==> stateHash.value == lastHash)
  }

  /** Accepts exactly the chained logs that agree with the state it is given, and
      otherwise reports the length of the longest chained prefix. */
  method VerifyEvents(events: seq<Event>, mac: Mac, stateSequence: Option<int>, stateHash: Option<string>)
    returns (r: Verification)
    ensures r.valid <==> Chained(mac, events)
                         && StateAgrees(|events|, HashBefore(events, |events|), stateSequence, stateHash)
    ensures r.eventCount == |events| && r.lastSequence <= |events| && r.lastHash == HashBefore(events, r.lastSequence)
    ensures Chained(mac, events[..r.lastSequence])
    ensures r.lastSequence < |events| ==>
              && !LinkedAt(mac, events, r.lastSequence)
              && r.failureSequence == Some(r.lastSequence + 1)
              && r.reason == Some(Fault(mac, events, r.lastSequence))
    ensures r.lastSequence == |events| ==>
              && r.failureSequence == None
              && (r.reason == Some(StateSequenceMismatch)
                  <==> stateSequence.Some? && stateSequence.value != |events|)
              && (r.reason == Some(StateHashMismatch)
                  <==> (stateSequence.Some? ==> stateSequence.value == |events|)
                       && stateHash.Some? && stateHash.value != r.lastHash)
    ensures r.valid <==> r.reason == None
  {
    var expectedPrevious := GENESIS;
    var expectedSequence: nat := 1;
    for i := 0 to |events|
      invariant expectedSequence == i + 1
      invariant expectedPrevious == HashBefore(events, i)
      invariant forall k :: 0 <= k < i ==> LinkedAt(mac, events, k)
    {
      var event := events[i];
      ghost var prefix := events[..i];
      assert !LinkedAt(mac, events, i) ==> !Chained(mac, events);
      assert forall k :: 0 <= k < i ==> LinkedAt(mac, prefix, k) by {
        forall k | 0 <= k < i ensures LinkedAt(mac, prefix, k) { assert LinkedAt(mac, events, k); }
      }
      if event.material.sequence != expectedSequence {
        return Verification(false, |events|, expectedSequence - 1, expectedPrevious, Some(expectedSequence),
                            Some(NonContiguousSequence));
      }
      if event.material.previousHash != expectedPrevious {
        return Verification(false, |events|, expectedSequence - 1, expectedPrevious, Some(event.material.sequence),
                            Some(PreviousHashMismatch));
      }
      if !HexDigest(event.eventHash) || mac(event.material) != event.eventHash {
        return Verification(false, |events|, expectedSequence - 1, expectedPrevious, Some(event.material.sequence),
                            Some(EventHmacMismatch));
      }
      expectedPrevious := event.eventHash;
      expectedSequence := expectedSequence + 1;
    }
    assert events[..|events|] == events;
    var lastSequence := expectedSequence - 1;
    if stateSequence.Some? && stateSequence.value != lastSequence {
      return Verification(false, |events|, lastSequence, expectedPrevious, None, Some(StateSequenceMismatch));
    }
    if stateHash.Some? && stateHash.value != expectedPrevious {
      return Verification(false, |events|, lastSequence, expectedPrevious, None, Some(StateHashMismatch));
    }
    return Verification(true, |events|, lastSequence, expectedPrevious, None, None);
  }

  /** The first fault: the sequence, then the hash before, then the event's own hash. */
  lemma FaultsInOrder(mac: Mac, events: seq<Event>, i: nat)
    requires i < |events| && !LinkedAt(mac, events, i)
    ensures var m, f := events[i].material, Fault(mac, events, i);
            var before := if i == 0 then GENESIS else events[i - 1].eventHash;
            && (f == NonContiguousSequence <==> m.sequence != i + 1)
            && (f == PreviousHashMismatch <==> m.sequence == i + 1 && m.previousHash != before)
            && (f == EventHmacMismatch <==> m.sequence == i + 1 && m.previousHash == before)
            && (f == EventHmacMismatch ==> mac(m) != events[i].eventHash || !HexDigest(events[i].eventHash))
  {
  }

  // ---------- tamper evidence ----------

  function MaterialsOf(events: seq<Event>): set<Material> { set e | e in events :: e.material }

  /** No two of these materials share a hash. */
  ghost predicate CollisionFree(mac: Mac, materials: set<Material>) {
    forall m, n :: m in materials && n in materials && mac(m) == mac(n) ==> m == n
  }

  /** Two accepted logs of one length with one last hash are the same log:
      backward induction, since each material holds the hash before it. */
  lemma {:induction false} SameHeadSameLog(mac: Mac, xs: seq<Event>, ys: seq<Event>)
    requires Chained(mac, xs) && Chained(mac, ys) && CollisionFree(mac, MaterialsOf(xs) + MaterialsOf(ys))
    requires |xs| == |ys| && HashBefore(xs, |xs|) == HashBefore(ys, |ys|)
    ensures xs == ys
  {
    if xs != [] {
      var n := |xs| - 1;
      assert LinkedAt(mac, xs, n) && LinkedAt(mac, ys, n);
      assert mac(xs[n].material) == mac(ys[n].material);
      ChainedPrefix(mac, xs, n);
      ChainedPrefix(mac, ys, n);
      assert MaterialsOf(xs[..n]) <= MaterialsOf(xs) && MaterialsOf(ys[..n]) <= MaterialsOf(ys);
      SameHeadSameLog(mac, xs[..n], ys[..n]);
      assert xs == xs[..n] + [xs[n]] && ys == ys[..n] + [ys[n]];
    }
  }

  lemma ChainedPrefix(mac: Mac, xs: seq<Event>, n: nat)
    requires Chained(mac, xs) && n <= |xs|
    ensures Chained(mac, xs[..n]) && HashBefore(xs[..n], n) == HashBefore(xs, n)
  {
    forall k | 0 <= k < n
      ensures LinkedAt(mac, xs[..n], k)
    {
      assert LinkedAt(mac, xs, k);
    }
  }

  /** The trusted hash alone already fixes the log, unless one of the two is empty
      and the hash of the other happens to print as the genesis value. */
  lemma HeadAloneFixesLog(mac: Mac, xs: seq<Event>, ys: seq<Event>)
    requires Chained(mac, xs) && Chained(mac, ys) && CollisionFree(mac, MaterialsOf(xs) + MaterialsOf(ys))
    requires HashBefore(xs, |xs|) == HashBefore(ys, |ys|)
    ensures xs == ys || ((xs == [] || ys == []) && HashBefore(xs, |xs|) == GENESIS)
  {
    if xs != [] && ys != [] {
      assert LinkedAt(mac, xs, |xs| - 1) && LinkedAt(mac, ys, |ys| - 1);
      assert mac(xs[|xs| - 1].material) == mac(ys[|ys| - 1].material);
      SameHeadSameLog(mac, xs, ys);
    }
  }

  /** A chained log of `n` events, all with the same input. */
  function Repeated(mac: Mac, input: EventInput, n: nat): (r: seq<Event>)
    ensures |r| == n
  {
    if n == 0 then []
    else
      var before := Repeated(mac, input, n - 1);
      var m := Material(input, n, HashBefore(before, n - 1));
      before + [Event(m, mac(m))]
  }

  lemma {:induction false} RepeatedChains(mac: Mac, input: EventInput, n: nat)
    requires PrintsHex(mac)
    ensures Chained(mac, Repeated(mac, input, n))
    ensures forall i :: 0 <= i < n ==> Repeated(mac, input, n)[i].material.input == input
  {
    if n > 0 {
      RepeatedChains(mac, input, n - 1);
      var before, all := Repeated(mac, input, n - 1), Repeated(mac, input, n);
      forall i | 0 <= i < n
        ensures LinkedAt(mac, all, i)
      {
        if i < n - 1 {
          assert LinkedAt(mac, before, i);
        }
      }
    }
  }

  /** The trusted sequence alone does not: of any two inputs and for any length there
      are two accepted logs that differ in every event. */
  lemma SequenceAloneIsNotEnough(mac: Mac, a: EventInput, b: EventInput, n: nat)
    requires a != b && PrintsHex(mac) && n > 0
    ensures exists xs: seq<Event>, ys: seq<Event> ::
              && |xs| == |ys| == n && Chained(mac, xs) && Chained(mac, ys)
              && (forall i :: 0 <= i < n ==> xs[i].material.input == a && ys[i].material.input == b)
              && xs != ys
  {
    RepeatedChains(mac, a, n);
    RepeatedChains(mac, b, n);
    assert Repeated(mac, a, n)[0].material.input != Repeated(mac, b, n)[0].material.input;
  }

  /** Exactly the empty log is fixed by its length. */
  lemma SequenceFixesOnlyTheEmptyLog(mac: Mac, n: nat)
    requires PrintsHex(mac)
    ensures (forall xs: seq<Event>, ys: seq<Event> :: |xs| == |ys| == n && Chained(mac, xs) && Chained(mac, ys) ==> xs == ys) <==> n == 0
  {
    if n > 0 {
      assert "first"[0] != "edited"[0];
      SequenceAloneIsNotEnough(mac, SampleInput("a", "first"), SampleInput("a", "edited"), n);
    }
  }

  // ---------- appending ----------

  datatype ChainState = ChainState(lastSequence: int, lastHash: string)

  /** The two tables; `rows` is in primary-key order, as the reader selects it. */
  datatype Log = Log(rows: seq<Event>, state: Option<ChainState>)

  const EMPTY: Log := Log([], None)

  function StateOf(log: Log): ChainState {
    match log.state case Some(s) => s case None => ChainState(0, GENESIS)
  }

  /** A row no unique constraint rejects: sequence, event identifier, event hash. */
  predicate Insertable(rows: seq<Event>, e: Event) {
    forall x <- rows ::
      && x.material.sequence != e.material.sequence
      && x.material.input.eventId != e.material.input.eventId
      && x.eventHash != e.eventHash
  }

  function InsertRow(rows: seq<Event>, e: Event): seq<Event> {
    if rows == [] || rows[|rows| - 1].material.sequence < e.material.sequence then rows + [e]
    else InsertRow(rows[..|rows| - 1], e) + [rows[|rows| - 1]]
  }

  /** The event an append builds on the chain state it read. */
  function Built(mac: Mac, state: ChainState, input: EventInput): Event {
    var m := Material(input, state.lastSequence + 1, state.lastHash);
    Event(m, mac(m))
  }

  /** None when the transaction fails and is rolled back. */
  function Append(mac: Mac, log: Log, input: EventInput): Option<Log> {
    var state := StateOf(log);
    var e := Built(mac, state, input);
    if state.lastSequence < 0 || !HexDigest(state.lastHash) || !Insertable(log.rows, e) then None
    else Some(Log(InsertRow(log.rows, e), Some(ChainState(e.material.sequence, e.eventHash))))
  }

  class AuditService {
    const mac: Mac
    var rows: seq<Event>
    var state: Option<ChainState>

    ghost function Value(): Log
      reads this
    {
      Log(rows, state)
    }

    constructor (mac: Mac)
      ensures this.mac == mac && Value() == EMPTY
    {
      this.mac := mac;
      rows, state := [], None;
    }

    /** None stands for AuditAppendError. */
    method AppendEvent(input: EventInput) returns (view: Option<Event>)
      modifies this
      ensures match Append(mac, old(Value()), input)
              case None => view == None && Value() == old(Value())
              case Some(log) => Value() == log && view == Some(Built(mac, StateOf(old(Value())), input))
    {
      var current := match state case Some(s) => s case None => ChainState(0, GENESIS);
      var sequence := current.lastSequence + 1;
      var material := Material(input, sequence, current.lastHash);
      if sequence < 1 || !HexDigest(material.previousHash) { return None; }
      var row := Event(material, mac(material));
      if !Insertable(rows, row) { return None; }
      rows := InsertRow(rows, row);
      state := Some(ChainState(sequence, row.eventHash));
      view := Some(row);
    }

    /** Valid exactly when there is a chain state and the rows chain up to it.  Otherwise,
        with a state, the diagnosis is the longest chained prefix and the first fault
        behind it, or else the part of the state that disagrees. */
    method Verify() returns (r: Verification)
      ensures r.valid <==> state.Some? && Chained(mac, rows)
                           && state.value == ChainState(|rows|, HashBefore(rows, |rows|))
      ensures state.None? ==> r == Verification(false, |rows|, 0, GENESIS, None, Some(StateMissing))
      ensures r.valid ==> r.eventCount == r.lastSequence == |rows| && r.lastHash == HashBefore(rows, |rows|)
      ensures state.Some? ==>
                && r.eventCount == |rows| && r.lastSequence <= |rows|
                && r.lastHash == HashBefore(rows, r.lastSequence)
                && Chained(mac, rows[..r.lastSequence])
      ensures state.Some? && r.lastSequence < |rows| ==>
                && !r.valid && !LinkedAt(mac, rows, r.lastSequence)
                && r.failureSequence == Some(r.lastSequence + 1)
                && r.reason == Some(Fault(mac, rows, r.lastSequence))
      ensures state.Some? && r.lastSequence == |rows| ==>
                && r.failureSequence == None
                && (r.reason == Some(StateSequenceMismatch) <==> state.value.lastSequence != |rows|)
                && (r.reason == Some(StateHashMismatch)
                    <==> state.value.lastSequence == |rows| && state.value.lastHash != r.lastHash)
      ensures r.valid <==> r.reason == None
    {
      if state.None? {
        return Verification(false, |rows|, 0, GENESIS, None, Some(StateMissing));
      }
      r := VerifyEvents(rows, mac, Some(state.value.lastSequence), Some(state.value.lastHash));
    }
  }

  // ---------- append and verify agree ----------

  ghost predicate PrintsHex(mac: Mac) {
    forall m :: HexDigest(mac(m))
  }

  /** The state that Verify accepts, or the untouched database. */
  predicate Sound(mac: Mac, log: Log) {
    && Chained(mac, log.rows)
    && StateOf(log) == ChainState(|log.rows|, HashBefore(log.rows, |log.rows|))
    && (log.state.None? ==> log.rows == [])
  }

  lemma GenesisIsHex()
    ensures HexDigest(GENESIS)
  {
    ZerosAreHex(64);
  }

  lemma {:induction false} ZerosAreHex(n: nat)
    ensures |Zeros(n)| == n && forall c <- Zeros(n) :: c == '0'
  {
    if n != 0 {
      ZerosAreHex(n - 1);
    }
  }

  lemma ChainedAppend(mac: Mac, rows: seq<Event>, e: Event)
    requires Chained(mac, rows) && Authentic(mac, e)
    requires e.material.sequence == |rows| + 1 && e.material.previousHash == HashBefore(rows, |rows|)
    ensures Chained(mac, rows + [e]) && InsertRow(rows, e) == rows + [e]
  {
    var all := rows + [e];
    forall k | 0 <= k < |all|
      ensures LinkedAt(mac, all, k)
    {
      if k < |rows| {
        assert LinkedAt(mac, rows, k);
      }
    }
    if rows != [] {
      assert LinkedAt(mac, rows, |rows| - 1);
    }
  }

  /** On a sound log an append with a fresh event identifier always succeeds: its
      sequence is new, and so is its hash. */
  lemma FreshAppendSucceeds(mac: Mac, log: Log, input: EventInput)
    requires PrintsHex(mac) && Sound(mac, log)
    requires CollisionFree(mac, MaterialsOf(log.rows) + {Built(mac, StateOf(log), input).material})
    ensures Append(mac, log, input).Some? <==> forall x <- log.rows :: x.material.input.eventId != input.eventId
  {
    GenesisIsHex();
    var e := Built(mac, StateOf(log), input);
    forall i | 0 <= i < |log.rows|
      ensures log.rows[i].material.sequence != e.material.sequence && log.rows[i].eventHash != e.eventHash
    {
      assert LinkedAt(mac, log.rows, i);
      assert log.rows[i].material in MaterialsOf(log.rows);
    }
    assert HexDigest(HashBefore(log.rows, |log.rows|)) by {
      if log.rows != [] {
        assert LinkedAt(mac, log.rows, |log.rows| - 1);
      }
    }
  }

  lemma AppendKeepsSound(mac: Mac, log: Log, input: EventInput)
    requires PrintsHex(mac) && Sound(mac, log) && Append(mac, log, input).Some?
    ensures Sound(mac, Append(mac, log, input).value)
    ensures Append(mac, log, input).value.rows == log.rows + [Built(mac, StateOf(log), input)]
  {
    ChainedAppend(mac, log.rows, Built(mac, StateOf(log), input));
  }

  /** Appends one after the other; a failed one leaves the log as it was. */
  function AppendAll(mac: Mac, inputs: seq<EventInput>): Log {
    if inputs == [] then EMPTY
    else
      var log := AppendAll(mac, inputs[..|inputs| - 1]);
      match Append(mac, log, inputs[|inputs| - 1]) case Some(grown) => grown case None => log
  }

  /** Every material an append of the sequence hashed, also those of failed appends. */
  function Hashed(mac: Mac, inputs: seq<EventInput>): set<Material> {
    if inputs == [] then {}
    else
      var before := inputs[..|inputs| - 1];
      Hashed(mac, before) + {Built(mac, StateOf(AppendAll(mac, before)), inputs[|inputs| - 1]).material}
  }

  /** After any appends, whatever the hash collides on, the log verifies. */
  lemma {:induction false} AppendsStaySound(mac: Mac, inputs: seq<EventInput>)
    requires PrintsHex(mac)
    ensures Sound(mac, AppendAll(mac, inputs))
    ensures MaterialsOf(AppendAll(mac, inputs).rows) <= Hashed(mac, inputs)
  {
    if inputs != [] {
      var before, last := inputs[..|inputs| - 1], inputs[|inputs| - 1];
      AppendsStaySound(mac, before);
      if Append(mac, AppendAll(mac, before), last).Some? {
        AppendKeepsSound(mac, AppendAll(mac, before), last);
      }
    }
  }

  /** And when the materials hashed on the way do not collide, it lists, in order,
      the inputs whose event identifier had not been used before. */
  lemma {:induction false} AppendsVerify(mac: Mac, inputs: seq<EventInput>)
    requires PrintsHex(mac) && CollisionFree(mac, Hashed(mac, inputs))
    ensures Sound(mac, AppendAll(mac, inputs))
    ensures Inputs(AppendAll(mac, inputs).rows) == FirstUses(inputs)
  {
    AppendsStaySound(mac, inputs);
    if inputs != [] {
      var before, last := inputs[..|inputs| - 1], inputs[|inputs| - 1];
      AppendsVerify(mac, before);
      AppendsStaySound(mac, before);
      AppendLists(mac, AppendAll(mac, before), last);
    }
  }

  /** One append lists its input exactly when the identifier is fresh. */
  lemma AppendLists(mac: Mac, log: Log, last: EventInput)
    requires PrintsHex(mac) && Sound(mac, log)
    requires CollisionFree(mac, MaterialsOf(log.rows) + {Built(mac, StateOf(log), last).material})
    ensures Append(mac, log, last).None? <==> Used(Inputs(log.rows), last.eventId)
    ensures Append(mac, log, last).Some? ==> Inputs(Append(mac, log, last).value.rows) == Inputs(log.rows) + [last]
  {
    FreshAppendSucceeds(mac, log, last);
    UsedMeansStored(log.rows, last.eventId);
    if Append(mac, log, last).Some? {
      AppendKeepsSound(mac, log, last);
      assert (log.rows + [Built(mac, StateOf(log), last)])[..|log.rows|] == log.rows;
    }
  }

  function Inputs(rows: seq<Event>): (r: seq<EventInput>)
    ensures |r| == |rows| && forall i :: 0 <= i < |rows| ==> r[i] == rows[i].material.input
  {
    if rows == [] then [] else Inputs(rows[..|rows| - 1]) + [rows[|rows| - 1].material.input]
  }

  predicate Used(inputs: seq<EventInput>, eventId: string) {
    exists x <- inputs :: x.eventId == eventId
  }

  /** The inputs that come first with their event identifier. */
  function FirstUses(inputs: seq<EventInput>): seq<EventInput> {
    if inputs == [] then []
    else
      var kept, last := FirstUses(inputs[..|inputs| - 1]), inputs[|inputs| - 1];
      if Used(kept, last.eventId) then kept else kept + [last]
  }

  lemma UsedMeansStored(rows: seq<Event>, eventId: string)
    ensures Used(Inputs(rows), eventId) <==> exists x <- rows :: x.material.input.eventId == eventId
  {
    var inputs := Inputs(rows);
    if Used(inputs, eventId) {
      var i :| 0 <= i < |inputs| && inputs[i].eventId == eventId;
      assert rows[i] in rows;
    }
    if exists x <- rows :: x.material.input.eventId == eventId {
      var i :| 0 <= i < |rows| && rows[i].material.input.eventId == eventId;
      assert inputs[i] in inputs;
    }
  }

  /** With the state that the appends left behind, the only rows verification
      accepts are the rows that were appended, short of a hash collision between the
      two logs: any edit, deletion, insertion, reordering or truncation is found. */
  lemma OnlyTheAppendedLogVerifies(mac: Mac, inputs: seq<EventInput>, rows: seq<Event>)
    requires PrintsHex(mac) && AppendAll(mac, inputs).state.Some?
    requires CollisionFree(mac, MaterialsOf(rows) + MaterialsOf(AppendAll(mac, inputs).rows))
    ensures var log := AppendAll(mac, inputs);
            var state := log.state.value;
            (Chained(mac, rows)
             && StateAgrees(|rows|, HashBefore(rows, |rows|), Some(state.lastSequence), Some(state.lastHash)))
            <==> rows == log.rows
  {
    AppendsStaySound(mac, inputs);
    var log := AppendAll(mac, inputs);
    if Chained(mac, rows) && |rows| == |log.rows| && HashBefore(rows, |rows|) == HashBefore(log.rows, |log.rows|) {
      SameHeadSameLog(mac, rows, log.rows);
    }
  }

  function Sample(c: char): string { Zeros(63) + [c] }

  /** A hash that tells apart the first event, its edited form, and what follows each. */
  function SampleMac(): Mac {
    (m: Material) =>
      if m.sequence == 1 then (if m.input.eventType == "edited" then Sample('3') else Sample('1'))
      else if m.previousHash == Sample('3') then Sample('4')
      else Sample('2')
  }

  function SampleInput(id: string, eventType: string): EventInput {
    EventInput(id, 0, eventType, "c", None, None, None, None, None, "SUCCESS", map[])
  }

  function SampleInputs(): seq<EventInput> { [SampleInput("a", "first"), SampleInput("b", "second")] }

  /** The first event edited and hashed again, the second relinked to it. */
  function EditedRows(): seq<Event> {
    var m := Material(SampleInput("a", "edited"), 1, GENESIS);
    var n := Material(SampleInput("b", "second"), 2, SampleMac()(m));
    [Event(m, SampleMac()(m)), Event(n, SampleMac()(n))]
  }

  lemma SampleShape(c: char)
    ensures |Sample(c)| == 64 && Sample(c)[63] == c
    ensures '0' <= c <= '9' ==> HexDigest(Sample(c))
  {
    ZerosAreHex(63);
  }

  lemma SamplePrintsHex()
    ensures PrintsHex(SampleMac())
  {
    SampleShape('1');
    SampleShape('2');
    SampleShape('3');
    SampleShape('4');
  }

  lemma {:induction false} TwoAppends(mac: Mac, a: EventInput, b: EventInput)
    requires PrintsHex(mac) && a.eventId != b.eventId
    requires forall m: Material, n: Material :: m.sequence == 1 && n.sequence == 2 ==> mac(m) != mac(n)
    ensures var first := Built(mac, ChainState(0, GENESIS), a);
            var second := Built(mac, ChainState(1, first.eventHash), b);
            && AppendAll(mac, [a, b]) == Log([first, second], Some(ChainState(2, second.eventHash)))
            && Hashed(mac, [a, b]) == {first.material, second.material}
  {
    GenesisIsHex();
    var first := Built(mac, ChainState(0, GENESIS), a);
    var second := Built(mac, ChainState(1, first.eventHash), b);
    assert [a][..0] == [] && [a, b][..1] == [a];
    assert AppendAll(mac, [a]) == Log([first], Some(ChainState(1, first.eventHash)));
    assert HexDigest(first.eventHash);
    assert Insertable([first], second);
    assert InsertRow([first], second) == [first, second];
    assert Hashed(mac, [a]) == {first.material};
  }

  /** The four materials of the sample and what they hash to. */
  lemma SampleHashes()
    ensures var first := Built(SampleMac(), ChainState(0, GENESIS), SampleInputs()[0]);
            var second := Built(SampleMac(), ChainState(1, first.eventHash), SampleInputs()[1]);
            && first.eventHash == Sample('1') && second.eventHash == Sample('2')
            && EditedRows()[0].eventHash == Sample('3') && EditedRows()[1].eventHash == Sample('4')
  {
    assert "first"[0] != "edited"[0];
    SampleShape('1');
    SampleShape('3');
    assert Sample('1')[63] != Sample('3')[63];
  }

  lemma EditedChains()
    ensures Chained(SampleMac(), EditedRows())
  {
    SampleHashes();
    SampleShape('3');
    SampleShape('4');
    assert LinkedAt(SampleMac(), EditedRows(), 0) && LinkedAt(SampleMac(), EditedRows(), 1);
  }

  lemma DistinctHashes(mac: Mac, a: Event, b: Event, c: Event, d: Event)
    requires forall e :: e in {a, b, c, d} ==> mac(e.material) == e.eventHash
    requires |{a.eventHash, b.eventHash, c.eventHash, d.eventHash}| == 4
    ensures CollisionFree(mac, {a.material, b.material}) && CollisionFree(mac, MaterialsOf([c, d]) + MaterialsOf([a, b]))
  {
    assert a.eventHash != b.eventHash && a.eventHash != c.eventHash && a.eventHash != d.eventHash;
    assert b.eventHash != c.eventHash && b.eventHash != d.eventHash && c.eventHash != d.eventHash;
    assert MaterialsOf([c, d]) == {c.material, d.material} && MaterialsOf([a, b]) == {a.material, b.material};
  }

  /** What the theorems above assume does occur: a hash of 64 digits, two appends and
      a chained competitor of the same length whose materials do not collide with
      theirs; the state tells the two logs apart. */
  lemma AssumptionsAreMet()
    ensures PrintsHex(SampleMac()) && CollisionFree(SampleMac(), Hashed(SampleMac(), SampleInputs()))
    ensures var log := AppendAll(SampleMac(), SampleInputs());
            && |log.rows| == |EditedRows()| == 2 && EditedRows() != log.rows && log.state.Some?
            && CollisionFree(SampleMac(), MaterialsOf(EditedRows()) + MaterialsOf(log.rows))
            && Chained(SampleMac(), EditedRows())
            && HashBefore(EditedRows(), 2) != log.state.value.lastHash
  {
    var a, b := SampleInputs()[0], SampleInputs()[1];
    var first := Built(SampleMac(), ChainState(0, GENESIS), a);
    var second := Built(SampleMac(), ChainState(1, first.eventHash), b);
    SamplePrintsHex();
    SampleHashes();
    EditedChains();
    SamplesDiffer();
    assert "a"[0] != "b"[0];
    TwoAppends(SampleMac(), a, b);
    DistinctHashes(SampleMac(), first, second, EditedRows()[0], EditedRows()[1]);
    assert EditedRows() == [EditedRows()[0], EditedRows()[1]];
  }

  lemma SamplesDiffer()
    ensures |{Sample('1'), Sample('2'), Sample('3'), Sample('4')}| == 4
    ensures Sample('2') != Sample('4')
  {
    SampleShape('1');
    SampleShape('2');
    SampleShape('3');
    SampleShape('4');
    var s1, s2, s3, s4 := Sample('1'), Sample('2'), Sample('3'), Sample('4');
    assert s1[63] != s2[63] && s1[63] != s3[63] && s1[63] != s4[63];
    assert s2[63] != s3[63] && s2[63] != s4[63] && s3[63] != s4[63];
  }

  // ---------- concurrent writers ----------

  /** A writer between reading the chain state and committing. */
  datatype Writer = Writer(read: Option<ChainState>, input: EventInput)

  datatype Race = Race(log: Log, writers: map<nat, Writer>)

  datatype Turn = Begin(w: nat, input: EventInput) | Commit(w: nat)

  /** The commit inserts the row, and the state row too when none was read; every
      constraint is checked against the tables as they are by then. */
  function CommitTurn(mac: Mac, log: Log, w: Writer): Log {
    var seen := Log(log.rows, w.read);
    if w.read.None? && log.state.Some? then log
    else match Append(mac, seen, w.input) case Some(grown) => grown case None => log
  }

  function RunTurn(mac: Mac, r: Race, t: Turn): Race {
    match t
    case Begin(w, input) => r.(writers := r.writers[w := Writer(r.log.state, input)])
    case Commit(w) =>
      if w !in r.writers then r
      else Race(CommitTurn(mac, r.log, r.writers[w]), r.writers - {w})
  }

  function RunTurns(mac: Mac, turns: seq<Turn>): Race {
    if turns == [] then Race(EMPTY, map[])
    else RunTurn(mac, RunTurns(mac, turns[..|turns| - 1]), turns[|turns| - 1])
  }

  /** What a writer read was the end of the chain when it read it. */
  predicate WasState(rows: seq<Event>, state: ChainState) {
    0 <= state.lastSequence <= |rows| && state.lastHash == HashBefore(rows, state.lastSequence)
  }

  ghost predicate RaceInv(mac: Mac, r: Race) {
    && Sound(mac, r.log)
    && forall w <- r.writers :: r.writers[w].read.Some? ==> WasState(r.log.rows, r.writers[w].read.value)
  }

  /** A stale writer loses on the sequence it computed. */
  lemma StaleCommitFails(mac: Mac, log: Log, w: Writer)
    requires Sound(mac, log) && PrintsHex(mac)
    requires w.read.Some? ==> WasState(log.rows, w.read.value)
    ensures CommitTurn(mac, log, w) == log
            || (StateOf(Log([], w.read)) == StateOf(log) && Some(CommitTurn(mac, log, w)) == Append(mac, log, w.input))
  {
    if w.read.Some? && w.read.value.lastSequence < |log.rows| {
      var k := w.read.value.lastSequence;
      assert LinkedAt(mac, log.rows, k);
      assert log.rows[k] in log.rows;
      assert !Insertable(log.rows, Built(mac, w.read.value, w.input));
    }
  }

  /** Without any lock, two writers that read the same state cannot both commit, so
      every interleaving leaves a log that verifies. */
  lemma {:induction false} RacesStaySound(mac: Mac, turns: seq<Turn>)
    requires PrintsHex(mac)
    ensures RaceInv(mac, RunTurns(mac, turns))
  {
    if turns != [] {
      var r, t := RunTurns(mac, turns[..|turns| - 1]), turns[|turns| - 1];
      RacesStaySound(mac, turns[..|turns| - 1]);
      if t.Commit? && t.w in r.writers {
        StaleCommitFails(mac, r.log, r.writers[t.w]);
        var after := CommitTurn(mac, r.log, r.writers[t.w]);
        if after != r.log {
          AppendKeepsSound(mac, r.log, r.writers[t.w].input);
        }
        assert r.log.rows <= after.rows;
      }
    }
  }

  // ---------- one append, on any log ----------

  lemma {:induction false} InsertedRow(rows: seq<Event>, e: Event)
    ensures multiset(InsertRow(rows, e)) == multiset(rows) + multiset{e}
  {
    if rows != [] {
      var n := |rows| - 1;
      assert rows == rows[..n] + [rows[n]];
      if rows[n].material.sequence >= e.material.sequence {
        InsertedRow(rows[..n], e);
      }
    }
  }

  predicate Ascending(rows: seq<Event>) {
    forall i, j :: 0 <= i < j < |rows| ==> rows[i].material.sequence < rows[j].material.sequence
  }

  lemma AscendingAppend(rows: seq<Event>, e: Event)
    requires Ascending(rows) && forall x <- rows :: x.material.sequence < e.material.sequence
    ensures Ascending(rows + [e])
  {
  }

  lemma LastIsLargest(rows: seq<Event>)
    requires Ascending(rows) && rows != []
    ensures Ascending(rows[..|rows| - 1])
    ensures forall x <- rows[..|rows| - 1] :: x.material.sequence < rows[|rows| - 1].material.sequence
  {
    var n := |rows| - 1;
    forall x | x in rows[..n]
      ensures x.material.sequence < rows[n].material.sequence
    {
      var i :| 0 <= i < n && rows[..n][i] == x;
      assert rows[i] == x;
    }
  }

  lemma InsertedBelow(rows: seq<Event>, e: Event, bound: int)
    requires e.material.sequence < bound && forall x <- rows :: x.material.sequence < bound
    ensures forall x <- InsertRow(rows, e) :: x.material.sequence < bound
  {
    InsertedRow(rows, e);
    forall x | x in InsertRow(rows, e)
      ensures x.material.sequence < bound
    {
      assert x in multiset(InsertRow(rows, e));
      assert x == e || x in multiset(rows);
    }
  }

  lemma {:induction false} InsertedInOrder(rows: seq<Event>, e: Event)
    requires Ascending(rows) && forall x <- rows :: x.material.sequence != e.material.sequence
    ensures Ascending(InsertRow(rows, e))
  {
    if rows == [] {
      return;
    }
    var n := |rows| - 1;
    LastIsLargest(rows);
    if rows[n].material.sequence < e.material.sequence {
      assert forall x <- rows :: x == rows[n] || x in rows[..n];
      AscendingAppend(rows, e);
    } else {
      assert rows[n] in rows;
      InsertedInOrder(rows[..n], e);
      InsertedBelow(rows[..n], e, rows[n].material.sequence);
      AscendingAppend(InsertRow(rows[..n], e), rows[n]);
    }
  }

  /** Whatever the log: the event continues the chain state, is refused when that state
      is malformed or a unique column clashes, and is otherwise put in sequence order. */
  lemma AppendExactly(mac: Mac, log: Log, input: EventInput)
    ensures var last := if log.state.None? then ChainState(0, GENESIS) else log.state.value;
            var m := Material(input, last.lastSequence + 1, last.lastHash);
            var e := Event(m, mac(m));
            var after := Append(mac, log, input);
            && (after.Some? <==>
                  && last.lastSequence >= 0 && HexDigest(last.lastHash)
                  && forall x <- log.rows ::
                       && x.material.sequence != last.lastSequence + 1
                       && x.material.input.eventId != input.eventId
                       && x.eventHash != mac(m))
            && (after.Some? ==>
                  && after.value.state == Some(ChainState(last.lastSequence + 1, mac(m)))
                  && multiset(after.value.rows) == multiset(log.rows) + multiset{e}
                  && (Ascending(log.rows) ==> Ascending(after.value.rows)))
  {
    var state := StateOf(log);
    var e := Built(mac, state, input);
    if Append(mac, log, input).Some? {
      InsertedRow(log.rows, e);
      if Ascending(log.rows) {
        InsertedInOrder(log.rows, e);
      }
    }
  }
}
