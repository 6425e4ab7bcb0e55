/** UART sessions over a channel of events (src/nets/uart.rs, src/nets/sio.rs);
the RTT sessions of src/nets/rtt.rs run the same loops without status events. */
module Session {
  import opened Bytes

  datatype Event =
    | Connected(devicePath: string, baudrate: nat)
    | Data(bytes: bytes)
    | Status(status: string)
    | Error(message: string)
    | Stopped

  /** What a receiver meets in turn: an event, or a moment with nothing queued
  that outlasts the wait. */
  datatype Slot = Now(event: Event) | Quiet

  datatype Failure = SessionError(message: string) | Closed | Timeout

  datatype Received = Got(event: Event) | Empty | Disconnected

  class Channel {
    var slots: seq<Slot>
    var open: bool

    constructor (slots: seq<Slot>, open: bool)
      ensures this.slots == slots && this.open == open
    {
      this.slots, this.open := slots, open;
    }

    method Receive() returns (r: Received)
      modifies this`slots
      ensures r == if old(slots) == [] then (if open then Empty else Disconnected)
                   else if old(slots)[0].Quiet? then Empty else Got(old(slots)[0].event)
      ensures slots == if old(slots) == [] then [] else old(slots)[1..]
    {
      if slots == [] {
        return if open then Empty else Disconnected;
      }
      r := if slots[0].Quiet? then Empty else Got(slots[0].event);
      slots := slots[1..];
    }
  }

  // ----- the data of an event queue

  function DataIn(slot: Slot): bytes {
    if slot.Now? && slot.event.Data? then slot.event.bytes else []
  }

  function DataOf(slots: seq<Slot>): bytes {
    if slots == [] then []
    else DataIn(slots[0]) + DataOf(slots[1..])
  }

  /** What draining a queue leaves behind. */
  datatype Drained = Drained(buf: bytes, status: Option<string>, rest: seq<Slot>, failure: Option<Failure>)

  function Drain(buf: bytes, status: Option<string>, slots: seq<Slot>, open: bool): Drained
    decreases |slots|
  {
    if slots == [] then Drained(buf, status, [], if open then None else Some(Closed))
    else
      match slots[0]
      case Quiet => Drained(buf, status, slots[1..], None)
      case Now(Data(b)) => Drain(buf + b, status, slots[1..], open)
      case Now(Status(s)) => Drain(buf, Some(s), slots[1..], open)
      case Now(Error(m)) => Drained(buf, status, slots[1..], Some(SessionError(m)))
      case Now(_) => Drain(buf, status, slots[1..], open)
  }

  function StatusAfter(status: Option<string>, slot: Slot): Option<string> {
    if slot.Now? && slot.event.Status? then Some(slot.event.status) else status
  }

  function LastStatus(status: Option<string>, slots: seq<Slot>): Option<string>
    decreases |slots|
  {
    if slots == [] then status else LastStatus(StatusAfter(status, slots[0]), slots[1..])
  }

  /** Ends a drain: a quiet moment or a session error. */
  predicate Stops(slot: Slot) {
    slot.Quiet? || slot.event.Error?
  }

  /** How a drain that took `taken` ends: by the slot that stopped it, or by
  the queue running out. */
  function Ends(taken: seq<Slot>, rest: seq<Slot>, open: bool): Option<Option<Failure>> {
    if taken != [] && taken[|taken| - 1].Quiet? then Some(None)
    else if taken != [] && taken[|taken| - 1].event.Error? then
      Some(Some(SessionError(taken[|taken| - 1].event.message)))
    else if rest == [] then Some(if open then None else Some(Closed))
    else None
  }

  /** A drain with outcome `d` that began with `buf` and `status` took `taken`. */
  ghost predicate Took(buf: bytes, status: Option<string>, open: bool, taken: seq<Slot>, d: Drained) {
    && d.buf == buf + DataOf(taken)
    && d.status == LastStatus(status, taken)
    && Ends(taken, d.rest, open) == Some(d.failure)
    && forall i :: 0 <= i < |taken| - 1 ==> !Stops(taken[i])
  }

  lemma TookOneMore(buf: bytes, status: Option<string>, open: bool, first: Slot, more: seq<Slot>, d: Drained)
    requires !Stops(first)
    requires Took(buf + DataIn(first), StatusAfter(status, first), open, more, d)
    ensures Took(buf, status, open, [first] + more, d)
  {
    var taken := [first] + more;
    assert taken[1..] == more;
    Regroup(buf, DataIn(first), DataOf(more));
    assert more != [] ==> taken[|taken| - 1] == more[|more| - 1];
  }

  /** Draining takes a prefix of the queue: everything through the first slot
  that stops it, or all of it. The buffer grows by exactly the prefix's data,
  the status is the prefix's last, and only the last slot taken can fail. */
  lemma {:induction false} DrainTakesPrefix(buf: bytes, status: Option<string>, slots: seq<Slot>, open: bool)
    returns (taken: seq<Slot>)
    ensures var d := Drain(buf, status, slots, open);
      slots == taken + d.rest && Took(buf, status, open, taken, d)
    decreases |slots|
  {
    assert buf + [] == buf;
    if slots == [] {
      taken := [];
    } else if Stops(slots[0]) {
      taken := [slots[0]];
      assert taken[1..] == [] && DataIn(taken[0]) == [];
      var d := Drain(buf, status, slots, open);
      assert DataOf(taken) == [];
      assert d.buf == buf + DataOf(taken);
      assert d.status == LastStatus(status, taken);
      assert Ends(taken, d.rest, open) == Some(d.failure);
      assert Took(buf, status, open, taken, d);
    } else {
      var first := slots[0];
      hide Took;
      var more := DrainTakesPrefix(buf + DataIn(first), StatusAfter(status, first), slots[1..], open);
      TookOneMore(buf, status, open, first, more, Drain(buf, status, slots, open));
      taken := [first] + more;
    }
  }

  lemma {:induction false} DataOfConcat(a: seq<Slot>, b: seq<Slot>)
    ensures DataOf(a + b) == DataOf(a) + DataOf(b)
  {
    if a == [] {
      assert a + b == b;
    } else {
      assert (a + b)[1..] == a[1..] + b;
      DataOfConcat(a[1..], b);
      Regroup(DataIn(a[0]), DataOf(a[1..]), DataOf(b));
    }
  }

  /** Draining moves data from the queue to the buffer and loses none. */
  lemma DrainConserves(buf: bytes, status: Option<string>, slots: seq<Slot>, open: bool)
    ensures var d := Drain(buf, status, slots, open);
      buf <= d.buf && d.buf + DataOf(d.rest) == buf + DataOf(slots) && |d.rest| <= |slots|
  {
    var taken := DrainTakesPrefix(buf, status, slots, open);
    var rest := Drain(buf, status, slots, open).rest;
    DataOfConcat(taken, rest);
    Regroup(buf, DataOf(taken), DataOf(rest));
  }

  // ----- the needle search

  /** The shortest prefix of `s` that ends in `needle`. */
  ghost predicate ShortestThrough(s: bytes, needle: bytes, prefix: bytes) {
    prefix <= s && |needle| <= |prefix| && FirstAt(s, needle, |prefix| - |needle|)
  }

  /** A first occurrence in a prefix is the first in the whole. */
  lemma FirstInPrefix(s: bytes, more: bytes, needle: bytes, at: nat)
    requires FirstAt(s, needle, at)
    ensures FirstAt(s + more, needle, at)
  {
    var n := |needle|;
    assert (s + more)[at..at + n] == s[at..at + n];
    forall j | 0 <= j < at
      ensures !OccursAt(s + more, needle, j)
    {
      assert (s + more)[j..j + n] == s[j..j + n];
      assert !OccursAt(s, needle, j);
    }
  }

  /** What is found in the buffer is found in the stream it begins. */
  lemma FoundInStream(found: bytes, rest: bytes, more: bytes, needle: bytes)
    requires ShortestThrough(found + rest, needle, found)
    ensures found + (rest + more) == found + rest + more
    ensures ShortestThrough(found + rest + more, needle, found)
  {
    FirstInPrefix(found + rest, more, needle, |found| - |needle|);
    Regroup(found, rest, more);
  }

  // ----- opening

  /** Ends the wait for a session to open. */
  predicate Decides(slot: Slot) {
    slot.Now? && (slot.event.Connected? || slot.event.Error?)
  }

  /** Waiting took `taken`: nothing before its last slot decided, and that slot
  or the end of the queue gave the result. */
  predicate Awaited(taken: seq<Slot>, rest: seq<Slot>, open: bool, failure: Option<Failure>, path: string, baud: nat) {
    && (forall i :: 0 <= i < |taken| - 1 ==> !Decides(taken[i]))
    && match failure
       case None => taken != [] && taken[|taken| - 1] == Now(Connected(path, baud))
       case Some(SessionError(m)) => taken != [] && taken[|taken| - 1] == Now(Error(m))
       case Some(Closed) => rest == [] && !open && Undecided(taken)
       case Some(Timeout) => Undecided(taken)
  }

  predicate Undecided(taken: seq<Slot>) {
    forall i :: 0 <= i < |taken| ==> !Decides(taken[i])
  }

  /** How waiting to open ends when the first `n` slots come in time; `late` is
  whether the deadline comes before the queue closes. */
  ghost predicate Opening(slots: seq<Slot>, n: nat, late: bool, failure: Option<Failure>)
    requires n <= |slots|
  {
    && (failure.None? <==>
          exists k: nat :: k < n && Undecided(slots[..k]) && slots[k].Now? && slots[k].event.Connected?)
    && (failure == Some(Timeout) <==> Undecided(slots[..n]) && late)
    && (failure == Some(Closed) <==> Undecided(slots[..n]) && !late)
  }

  /** The slots ahead of the first quiet moment. */
  function BeforeQuiet(slots: seq<Slot>): (n: nat)
    ensures n <= |slots| && (n < |slots| ==> slots[n].Quiet?)
    ensures forall i :: 0 <= i < n ==> slots[i].Now?
  {
    if slots == [] || slots[0].Quiet? then 0 else 1 + BeforeQuiet(slots[1..])
  }

  /** None of the first `k` slots decides. */
  predicate NoneDecides(slots: seq<Slot>, k: nat)
    requires k <= |slots|
  {
    forall i :: 0 <= i < k ==> !Decides(slots[i])
  }

  /** The wait ends when the first `k` slots have been taken. */
  lemma OpeningEnds(slots: seq<Slot>, n: nat, k: nat, open: bool, late: bool, failure: Option<Failure>, path: string,
                    baud: nat)
    requires n <= |slots| && k <= |slots|
    requires match failure
      case None => 0 < k <= n && NoneDecides(slots, k - 1) && slots[k - 1] == Now(Connected(path, baud))
      case Some(SessionError(m)) => 0 < k <= n && NoneDecides(slots, k - 1) && slots[k - 1] == Now(Error(m))
      case Some(Closed) => n <= k == |slots| && NoneDecides(slots, k) && !open && !late
      case Some(Timeout) => n <= k && NoneDecides(slots, k) && late
    ensures slots == slots[..k] + slots[k..]
    ensures Awaited(slots[..k], slots[k..], open, failure, path, baud) && Opening(slots, n, late, failure)
  {
    if failure.None? || failure.value.SessionError? {
      assert slots[..n][k - 1] == slots[k - 1];
      assert forall j :: k - 1 < j <= n ==> slots[..j][k - 1] == slots[k - 1];
    }
  }

  /** One more slot of a queue of which `k` have been taken. */
  lemma TakeOne(slots: seq<Slot>, k: nat, before: bytes)
    requires k < |slots|
    ensures slots[k..][0] == slots[k] && slots[k..][1..] == slots[k + 1..]
    ensures before + DataOf(slots[..k + 1]) ==
      if slots[k].Now? && slots[k].event.Data? then before + DataOf(slots[..k]) + slots[k].event.bytes
      else before + DataOf(slots[..k])
  {
    assert slots[..k] + [slots[k]] == slots[..k + 1];
    DataOfConcat(slots[..k], [slots[k]]);
    DataOfOne(slots[k]);
    hide DataOf;
    Regroup(before, DataOf(slots[..k]), DataIn(slots[k]));
    if DataIn(slots[k]) == [] {
      assert before + DataOf(slots[..k]) + [] == before + DataOf(slots[..k]);
    }
  }

  lemma DataOfOne(slot: Slot)
    ensures DataOf([slot]) == DataIn(slot)
  {
    assert [slot][1..] == [] && DataIn(slot) + [] == DataIn(slot);
  }

  lemma StreamKept(slots: seq<Slot>, k: nat, before: bytes)
    requires k <= |slots|
    ensures before + DataOf(slots[..k]) + DataOf(slots[k..]) == before + DataOf(slots)
  {
    assert slots[..k] + slots[k..] == slots;
    DataOfConcat(slots[..k], slots[k..]);
    hide DataOf;
    Regroup(before, DataOf(slots[..k]), DataOf(slots[k..]));
  }

  lemma NothingTaken(before: bytes)
    ensures before + DataOf([]) == before
  {
  }

  // ----- drain after drain

  /** What `n` drains leave, or those up to the first that fails. */
  function Drains(buf: bytes, status: Option<string>, slots: seq<Slot>, open: bool, n: nat): Drained {
    if n == 0 then Drained(buf, status, slots, None)
    else
      var d := Drains(buf, status, slots, open, n - 1);
      if d.failure.Some? then d else Drain(d.buf, d.status, d.rest, open)
  }

  lemma {:induction false} FailedForGood(buf: bytes, status: Option<string>, slots: seq<Slot>, open: bool, k: nat, n: nat)
    requires k <= n && Drains(buf, status, slots, open, k).failure.Some?
    ensures Drains(buf, status, slots, open, n) == Drains(buf, status, slots, open, k)
  {
    if k < n {
      FailedForGood(buf, status, slots, open, k, n - 1);
    }
  }

  /** The needle is in the buffer, or in it after one of the first `n` drains,
  none of which failed. */
  ghost predicate Shows(buf: bytes, status: Option<string>, slots: seq<Slot>, open: bool, n: nat, needle: bytes) {
    exists k: nat :: k <= n
      && Drains(buf, status, slots, open, k).failure.None? && Occurs(Drains(buf, status, slots, open, k).buf, needle)
  }

  lemma OneMoreDrain(buf: bytes, status: Option<string>, slots: seq<Slot>, open: bool, k: nat)
    requires Drains(buf, status, slots, open, k).failure.None?
    ensures var d := Drains(buf, status, slots, open, k);
      Drains(buf, status, slots, open, k + 1) == Drain(d.buf, d.status, d.rest, open)
  {
  }

  lemma ItShows(buf: bytes, status: Option<string>, slots: seq<Slot>, open: bool, n: nat, needle: bytes, k: nat,
                found: bytes)
    requires k <= n && Drains(buf, status, slots, open, k).failure.None?
    requires ShortestThrough(Drains(buf, status, slots, open, k).buf, needle, found)
    ensures Shows(buf, status, slots, open, n, needle)
  {
    var d := Drains(buf, status, slots, open, k);
    assert OccursAt(d.buf, needle, |found| - |needle|);
    hide Drains, OccursAt;
  }

  /** The needle is in the buffer after none of the first `n` drains. */
  ghost predicate NotIn(buf: bytes, status: Option<string>, slots: seq<Slot>, open: bool, n: nat, needle: bytes) {
    forall k: nat :: k < n ==> !Occurs(Drains(buf, status, slots, open, k).buf, needle)
  }

  lemma NorInNext(buf: bytes, status: Option<string>, slots: seq<Slot>, open: bool, n: nat, needle: bytes)
    requires NotIn(buf, status, slots, open, n, needle)
    requires !Occurs(Drains(buf, status, slots, open, n).buf, needle)
    ensures NotIn(buf, status, slots, open, n + 1, needle)
  {
    hide Drains, Occurs;
  }

  lemma NoDrain(buf: bytes, status: Option<string>, slots: seq<Slot>, open: bool, needle: bytes)
    ensures Drains(buf, status, slots, open, 0) == Drained(buf, status, slots, None)
    ensures NotIn(buf, status, slots, open, 0, needle)
  {
  }

  /** A wait without the needle reports the drain that failed, or the deadline. */
  function WaitFailure(failure: Option<Failure>): Failure {
    match failure
    case Some(f) => f
    case None => Timeout
  }

  /** Waiting ends without the needle: after `n` drains, or with the failure of one. */
  lemma NeverShows(buf: bytes, status: Option<string>, slots: seq<Slot>, open: bool, n: nat, needle: bytes, done: nat)
    requires done <= n && (done < n ==> Drains(buf, status, slots, open, done + 1).failure.Some?)
    requires NotIn(buf, status, slots, open, done + 1, needle)
    ensures !Shows(buf, status, slots, open, n, needle)
  {
    forall k: nat | done < k <= n
      ensures Drains(buf, status, slots, open, k).failure.Some?
    {
      FailedForGood(buf, status, slots, open, done + 1, k);
    }
    hide Drains, Occurs;
  }

  datatype Reply = Ok(bytes: bytes) | Err(failure: Failure)

  /** A blocking session. */
  class Uart {
    const rx: Channel
    var buf: bytes
    var lastStatus: Option<string>
    var devicePath: string
    var baudrate: nat

    constructor (rx: Channel)
      ensures this.rx == rx && buf == [] && lastStatus == None
    {
      this.rx, buf, lastStatus, devicePath, baudrate := rx, [], None, "", 0;
    }

    /** Every byte received or still to be, in arrival order. */
    ghost function Stream(): bytes
      reads this, rx
    {
      buf + DataOf(rx.slots)
    }

    /** Wait for the box to open the port. Data that beats the confirmation is
    kept. The deadline passes at the check number `patience`. */
    method Open(patience: nat) returns (failure: Option<Failure>, ghost taken: seq<Slot>)
      modifies this, rx`slots
      ensures old(rx.slots) == taken + rx.slots
      ensures buf == old(buf) + DataOf(taken) && lastStatus == old(lastStatus)
      ensures Awaited(taken, rx.slots, rx.open, failure, devicePath, baudrate)
      ensures |taken| <= patience
      ensures Opening(old(rx.slots), Min(patience, |old(rx.slots)|), rx.open || patience <= |old(rx.slots)|, failure)
      ensures Stream() == old(Stream())
    {
      hide DataOf, Opening, Awaited;
      ghost var all, open := rx.slots, rx.open;
      ghost var n, late, k: nat := Min(patience, |all|), open || patience <= |all|, 0;
      NothingTaken(buf);
      var checks := patience;
      while checks > 0
        invariant k <= |all| && rx.slots == all[k..]
        invariant k + checks == patience || (k == |all| && open && k + checks <= patience)
        invariant buf == old(buf) + DataOf(all[..k]) && lastStatus == old(lastStatus)
        invariant NoneDecides(all, k)
      {
        checks := checks - 1;
        if k < |all| {
          TakeOne(all, k, old(buf));
        }
        var r := rx.Receive();
        k := Min(k + 1, |all|);
        StreamKept(all, k, old(buf));
        taken := all[..k];
        match r
        case Got(Connected(path, baud)) =>
          devicePath, baudrate := path, baud;
          failure := None;
          OpeningEnds(all, n, k, open, late, failure, path, baud);
          return;
        case Got(Data(bytes)) =>
          buf := buf + bytes;
        case Got(Error(m)) =>
          failure := Some(SessionError(m));
          OpeningEnds(all, n, k, open, late, failure, devicePath, baudrate);
          return;
        case Got(_) =>
        case Empty =>
        case Disconnected =>
          failure := Some(Closed);
          OpeningEnds(all, n, k, open, late, failure, devicePath, baudrate);
          return;
      }
      StreamKept(all, k, old(buf));
      taken := all[..k];
      failure := Some(Timeout);
      OpeningEnds(all, n, k, open, late, failure, devicePath, baudrate);
    }

    /** Drain incoming events into the buffer. */
    method Pump() returns (failure: Option<Failure>)
      modifies this`buf, this`lastStatus, rx`slots
      ensures Drained(buf, lastStatus, rx.slots, failure)
           == Drain(old(buf), old(lastStatus), old(rx.slots), rx.open)
      ensures failure != Some(Timeout)
    {
      while true
        invariant Drain(buf, lastStatus, rx.slots, rx.open)
               == Drain(old(buf), old(lastStatus), old(rx.slots), rx.open)
        decreases |rx.slots|
      {
        var r := rx.Receive();
        match r
        case Got(Data(bytes)) => buf := buf + bytes;
        case Got(Error(m)) => return Some(SessionError(m));
        case Got(Status(s)) => lastStatus := Some(s);
        case Got(_) =>
        case Empty => return None;
        case Disconnected => return Some(Closed);
      }
    }

    /** Whatever has arrived; on failure it stays buffered. */
    method Read() returns (r: Reply)
      modifies this`buf, this`lastStatus, rx`slots
      ensures var d := Drain(old(buf), old(lastStatus), old(rx.slots), rx.open);
        && lastStatus == d.status && rx.slots == d.rest
        && (if d.failure.None? then r == Ok(d.buf) && buf == [] else r == Err(d.failure.value) && buf == d.buf)
      ensures r.Ok? ==> r.bytes + Stream() == old(Stream())
      ensures r.Err? ==> old(buf) <= buf && Stream() == old(Stream())
    {
      DrainConserves(buf, lastStatus, rx.slots, rx.open);
      var failure := Pump();
      if failure.Some? {
        return Err(failure.value);
      }
      r := Ok(buf);
      buf := [];
    }

    /** Whatever is already queued, without waiting. */
    method TryRead() returns (r: Reply)
      modifies this`buf, this`lastStatus, rx`slots
      ensures var d := Drain(old(buf), old(lastStatus), old(rx.slots), rx.open);
        && lastStatus == d.status && rx.slots == d.rest
        && (if d.failure.None? then r == Ok(d.buf) && buf == [] else r == Err(d.failure.value) && buf == d.buf)
      ensures r.Ok? ==> r.bytes + Stream() == old(Stream())
      ensures r.Err? ==> old(buf) <= buf && Stream() == old(Stream())
    {
      r := Read();
    }

    /** Accumulate output until `needle` appears. On success exactly the
    shortest prefix of the undelivered stream that ends in it is taken, however
    the bytes were split into events; on failure nothing is. */
    method WaitFor(needle: bytes, patience: nat) returns (r: Reply)
      modifies this`buf, this`lastStatus, rx`slots
      ensures needle == [] ==> r == Ok([]) && buf == old(buf) && rx.slots == old(rx.slots)
      ensures r.Ok? ==> r.bytes + Stream() == old(Stream())
      ensures r.Ok? && needle != [] ==> ShortestThrough(old(Stream()), needle, r.bytes)
      ensures r.Err? ==> old(buf) <= buf && Stream() == old(Stream())
      ensures r == Err(Timeout) ==> !Occurs(buf, needle)
      ensures needle != [] ==>
        (r.Ok? <==> Shows(old(buf), old(lastStatus), old(rx.slots), rx.open, patience, needle))
      ensures r.Err? ==>
        r.failure == WaitFailure(Drains(old(buf), old(lastStatus), old(rx.slots), rx.open, patience).failure)
    {
      if needle == [] {
        return Ok([]);
      }
      ghost var buf0, status0, slots0 := buf, lastStatus, rx.slots;
      hide Drain, Drains, DataOf, Occurs, ShortestThrough, Shows, NotIn;
      NoDrain(buf, lastStatus, rx.slots, rx.open, needle);
      var checks: nat := patience;
      ghost var n: nat := 0;
      while true
        invariant Stream() == old(Stream()) && old(buf) <= buf && n + checks == patience
        invariant Drained(buf, lastStatus, rx.slots, None) == Drains(buf0, status0, slots0, rx.open, n)
        invariant NotIn(buf0, status0, slots0, rx.open, n, needle)
        decreases checks
      {
        var found;
        found, buf := TakeThrough(buf, needle);
        if found.Some? {
          FoundInStream(found.value, buf, DataOf(rx.slots), needle);
          ItShows(buf0, status0, slots0, rx.open, patience, needle, n, found.value);
          return Ok(found.value);
        }
        NorInNext(buf0, status0, slots0, rx.open, n, needle);
        if checks == 0 {
          NeverShows(buf0, status0, slots0, rx.open, patience, needle, patience);
          return Err(Timeout);
        }
        OneMoreDrain(buf0, status0, slots0, rx.open, n);
        checks, n := checks - 1, n + 1;
        DrainConserves(buf, lastStatus, rx.slots, rx.open);
        var failure := Pump();
        if failure.Some? {
          NeverShows(buf0, status0, slots0, rx.open, patience, needle, n - 1);
          FailedForGood(buf0, status0, slots0, rx.open, n, patience);
          return Err(failure.value);
        }
      }
    }
  }

  /** If `needle` is in `buf`, cut off everything up to and including it. */
  method TakeThrough(buf: bytes, needle: bytes) returns (found: Option<bytes>, rest: bytes)
    ensures found.Some? ==> found.value + rest == buf && ShortestThrough(buf, needle, found.value)
    ensures found.None? ==> rest == buf && !Occurs(buf, needle)
  {
    var at := Search(buf, needle);
    if at.None? {
      return None, buf;
    }
    var end := at.value + |needle|;
    assert buf[..end] + buf[end..] == buf;
    return Some(buf[..end]), buf[end..];
  }

  /** An async session: the same contracts, met by its own loops. */
  class AsyncUart {
    const rx: Channel
    var buf: bytes
    var lastStatus: Option<string>
    var devicePath: string
    var baudrate: nat

    constructor (rx: Channel)
      ensures this.rx == rx && buf == [] && lastStatus == None
    {
      this.rx, buf, lastStatus, devicePath, baudrate := rx, [], None, "", 0;
    }

    ghost function Stream(): bytes
      reads this, rx
    {
      buf + DataOf(rx.slots)
    }

    /** Wait for the box to open the port; the deadline is a quiet moment. */
    method Open() returns (failure: Option<Failure>, ghost taken: seq<Slot>)
      modifies this, rx`slots
      ensures old(rx.slots) == taken + rx.slots
      ensures buf == old(buf) + DataOf(taken) && lastStatus == old(lastStatus)
      ensures Awaited(taken, rx.slots, rx.open, failure, devicePath, baudrate)
      ensures failure == Some(Timeout) ==> taken == old(rx.slots) || (taken != [] && taken[|taken| - 1].Quiet?)
      ensures var n := BeforeQuiet(old(rx.slots));
        Opening(old(rx.slots), n, rx.open || n < |old(rx.slots)|, failure)
      ensures Stream() == old(Stream())
    {
      hide DataOf, Opening, Awaited, BeforeQuiet;
      ghost var all, open := rx.slots, rx.open;
      ghost var n := BeforeQuiet(all);
      ghost var late, k: nat := open || n < |all|, 0;
      NothingTaken(buf);
      while true
        invariant k <= n && rx.slots == all[k..]
        invariant buf == old(buf) + DataOf(all[..k]) && lastStatus == old(lastStatus)
        invariant NoneDecides(all, k)
        decreases |rx.slots|
      {
        if k < |all| {
          TakeOne(all, k, old(buf));
        }
        var r := rx.Receive();
        k := Min(k + 1, |all|);
        StreamKept(all, k, old(buf));
        taken := all[..k];
        match r
        case Empty =>
          failure := Some(Timeout);
          OpeningEnds(all, n, k, open, late, failure, devicePath, baudrate);
          return;
        case Got(Connected(path, baud)) =>
          devicePath, baudrate := path, baud;
          failure := None;
          OpeningEnds(all, n, k, open, late, failure, path, baud);
          return;
        case Got(Data(bytes)) =>
          buf := buf + bytes;
        case Got(Error(m)) =>
          failure := Some(SessionError(m));
          OpeningEnds(all, n, k, open, late, failure, devicePath, baudrate);
          return;
        case Got(_) =>
        case Disconnected =>
          failure := Some(Closed);
          OpeningEnds(all, n, k, open, late, failure, devicePath, baudrate);
          return;
      }
    }

    /** Take one event into the session. */
    method Absorb(event: Event) returns (hadData: bool, failure: Option<Failure>)
      modifies this`buf, this`lastStatus
      ensures hadData == event.Data?
      ensures failure == if event.Error? then Some(SessionError(event.message)) else None
      ensures buf == if event.Data? then old(buf) + event.bytes else old(buf)
      ensures lastStatus == if event.Status? then Some(event.status) else old(lastStatus)
    {
      match event
      case Data(bytes) =>
        buf := buf + bytes;
        return true, None;
      case Error(m) => return false, Some(SessionError(m));
      case Status(s) =>
        lastStatus := Some(s);
        return false, None;
      case _ =>
        return false, None;
    }

    /** Take every event already queued. */
    method DrainQueue() returns (failure: Option<Failure>)
      modifies this`buf, this`lastStatus, rx`slots
      ensures Drained(buf, lastStatus, rx.slots, failure)
           == Drain(old(buf), old(lastStatus), old(rx.slots), rx.open)
      ensures failure != Some(Timeout)
    {
      while true
        invariant Drain(buf, lastStatus, rx.slots, rx.open)
               == Drain(old(buf), old(lastStatus), old(rx.slots), rx.open)
        decreases |rx.slots|
      {
        var r := rx.Receive();
        match r
        case Got(event) =>
          var _, problem := Absorb(event);
          if problem.Some? {
            return problem;
          }
        case Empty => return None;
        case Disconnected => return Some(Closed);
      }
    }

    /** Wait until data arrives, then take everything queued. */
    method Pump() returns (failure: Option<Failure>)
      modifies this`buf, this`lastStatus, rx`slots
      ensures Drained(buf, lastStatus, rx.slots, failure)
           == Drain(old(buf), old(lastStatus), old(rx.slots), rx.open)
      ensures failure != Some(Timeout)
    {
      while true
        invariant Drain(buf, lastStatus, rx.slots, rx.open)
               == Drain(old(buf), old(lastStatus), old(rx.slots), rx.open)
        decreases |rx.slots|
      {
        var r := rx.Receive();
        match r
        case Empty => return None;
        case Disconnected => return Some(Closed);
        case Got(event) =>
          var hadData, problem := Absorb(event);
          if problem.Some? {
            return problem;
          }
          if hadData {
            failure := DrainQueue();
            return;
          }
      }
    }

    method Read() returns (r: Reply)
      modifies this`buf, this`lastStatus, rx`slots
      ensures var d := Drain(old(buf), old(lastStatus), old(rx.slots), rx.open);
        && lastStatus == d.status && rx.slots == d.rest
        && (if d.failure.None? then r == Ok(d.buf) && buf == [] else r == Err(d.failure.value) && buf == d.buf)
      ensures r.Ok? ==> r.bytes + Stream() == old(Stream())
      ensures r.Err? ==> old(buf) <= buf && Stream() == old(Stream())
    {
      DrainConserves(buf, lastStatus, rx.slots, rx.open);
      var failure := Pump();
      if failure.Some? {
        return Err(failure.value);
      }
      r := Ok(buf);
      buf := [];
    }

    method TryRead() returns (r: Reply)
      modifies this`buf, this`lastStatus, rx`slots
      ensures var d := Drain(old(buf), old(lastStatus), old(rx.slots), rx.open);
        && lastStatus == d.status && rx.slots == d.rest
        && (if d.failure.None? then r == Ok(d.buf) && buf == [] else r == Err(d.failure.value) && buf == d.buf)
      ensures r.Ok? ==> r.bytes + Stream() == old(Stream())
      ensures r.Err? ==> old(buf) <= buf && Stream() == old(Stream())
    {
      DrainConserves(buf, lastStatus, rx.slots, rx.open);
      var failure := DrainQueue();
      if failure.Some? {
        return Err(failure.value);
      }
      r := Ok(buf);
      buf := [];
    }

    method WaitFor(needle: bytes, patience: nat) returns (r: Reply)
      modifies this`buf, this`lastStatus, rx`slots
      ensures needle == [] ==> r == Ok([]) && buf == old(buf) && rx.slots == old(rx.slots)
      ensures r.Ok? ==> r.bytes + Stream() == old(Stream())
      ensures r.Ok? && needle != [] ==> ShortestThrough(old(Stream()), needle, r.bytes)
      ensures r.Err? ==> old(buf) <= buf && Stream() == old(Stream())
      ensures r == Err(Timeout) ==> !Occurs(buf, needle)
      ensures needle != [] ==>
        (r.Ok? <==> Shows(old(buf), old(lastStatus), old(rx.slots), rx.open, patience, needle))
      ensures r.Err? ==>
        r.failure == WaitFailure(Drains(old(buf), old(lastStatus), old(rx.slots), rx.open, patience).failure)
    {
      if needle == [] {
        return Ok([]);
      }
      ghost var buf0, status0, slots0 := buf, lastStatus, rx.slots;
      hide Drain, Drains, DataOf, Occurs, ShortestThrough, Shows, NotIn;
      NoDrain(buf, lastStatus, rx.slots, rx.open, needle);
      var checks: nat := patience;
      ghost var n: nat := 0;
      while true
        invariant Stream() == old(Stream()) && old(buf) <= buf && n + checks == patience
        invariant Drained(buf, lastStatus, rx.slots, None) == Drains(buf0, status0, slots0, rx.open, n)
        invariant NotIn(buf0, status0, slots0, rx.open, n, needle)
        decreases checks
      {
        var found;
        found, buf := TakeThrough(buf, needle);
        if found.Some? {
          FoundInStream(found.value, buf, DataOf(rx.slots), needle);
          ItShows(buf0, status0, slots0, rx.open, patience, needle, n, found.value);
          return Ok(found.value);
        }
        NorInNext(buf0, status0, slots0, rx.open, n, needle);
        if checks == 0 {
          NeverShows(buf0, status0, slots0, rx.open, patience, needle, patience);
          return Err(Timeout);
        }
        OneMoreDrain(buf0, status0, slots0, rx.open, n);
        checks, n := checks - 1, n + 1;
        DrainConserves(buf, lastStatus, rx.slots, rx.open);
        var failure := Pump();
        if failure.Some? {
          NeverShows(buf0, status0, slots0, rx.open, patience, needle, n - 1);
          FailedForGood(buf0, status0, slots0, rx.open, n, patience);
          return Err(failure.value);
        }
      }
    }
  }

  // ----- whole runs

  /** Blocking and async draining of one queue end alike: same buffer, status,
  queue and result, whatever the events, open or disconnected. */
  method ComparePumps(buf: bytes, status: Option<string>, slots: seq<Slot>, open: bool)
    returns (blocking: Drained, drained: Drained, pumped: Drained)
    ensures blocking == drained == pumped
  {
    var rx := new Channel(slots, open);
    var u := new Uart(rx);
    u.buf, u.lastStatus := buf, status;
    var failure := u.Pump();
    blocking := Drained(u.buf, u.lastStatus, rx.slots, failure);
    rx := new Channel(slots, open);
    var a := new AsyncUart(rx);
    a.buf, a.lastStatus := buf, status;
    failure := a.DrainQueue();
    drained := Drained(a.buf, a.lastStatus, rx.slots, failure);
    rx := new Channel(slots, open);
    a := new AsyncUart(rx);
    a.buf, a.lastStatus := buf, status;
    failure := a.Pump();
    pumped := Drained(a.buf, a.lastStatus, rx.slots, failure);
  }

  datatype Op = DoRead | DoTryRead | DoWaitFor(needle: bytes, patience: nat)

  /** Any run of a session, failed calls included: what was delivered, then
  what is buffered, then what is queued is all the data that ever arrived. */
  method Run(slots: seq<Slot>, open: bool, patience: nat, ops: seq<Op>)
    returns (delivered: bytes, buffered: bytes, queued: seq<Slot>)
    ensures delivered + buffered + DataOf(queued) == DataOf(slots)
  {
    var rx := new Channel(slots, open);
    var u := new Uart(rx);
    delivered := [];
    assert u.Stream() == DataOf(slots);
    var _, _ := u.Open(patience);
    for i := 0 to |ops|
      invariant fresh(u) && fresh(u.rx)
      invariant delivered + u.Stream() == DataOf(slots)
    {
      ghost var s := u.Stream();
      var r;
      match ops[i] {
        case DoRead => r := u.Read();
        case DoTryRead => r := u.TryRead();
        case DoWaitFor(needle, p) => r := u.WaitFor(needle, p);
      }
      if r.Ok? {
        Regroup(delivered, r.bytes, u.Stream());
        delivered := delivered + r.bytes;
      }
    }
    Regroup(delivered, u.buf, DataOf(u.rx.slots));
    return delivered, u.buf, u.rx.slots;
  }

  /** The same for an async session. */
  method RunAsync(slots: seq<Slot>, open: bool, ops: seq<Op>)
    returns (delivered: bytes, buffered: bytes, queued: seq<Slot>)
    ensures delivered + buffered + DataOf(queued) == DataOf(slots)
  {
    var rx := new Channel(slots, open);
    var u := new AsyncUart(rx);
    delivered := [];
    assert u.Stream() == DataOf(slots);
    var _, _ := u.Open();
    for i := 0 to |ops|
      invariant fresh(u) && fresh(u.rx)
      invariant delivered + u.Stream() == DataOf(slots)
    {
      var r;
      match ops[i] {
        case DoRead => r := u.Read();
        case DoTryRead => r := u.TryRead();
        case DoWaitFor(needle, p) => r := u.WaitFor(needle, p);
      }
      if r.Ok? {
        Regroup(delivered, r.bytes, u.Stream());
        delivered := delivered + r.bytes;
      }
    }
    Regroup(delivered, u.buf, DataOf(u.rx.slots));
    return delivered, u.buf, u.rx.slots;
  }

  /** Two sessions sent the same bytes in different pieces: where both find the
  needle they return the same bytes, even when it straddles events. */
  method WaitForTwice(one: seq<Slot>, two: seq<Slot>, needle: bytes, p: nat, q: nat) returns (r: Reply, a: Reply)
    requires DataOf(one) == DataOf(two)
    ensures r.Ok? && a.Ok? ==> r == a
    ensures r.Ok? && needle != [] ==> ShortestThrough(DataOf(one), needle, r.bytes)
  {
    var rx := new Channel(one, true);
    var u := new Uart(rx);
    assert u.Stream() == DataOf(one);
    r := u.WaitFor(needle, p);
    rx := new Channel(two, true);
    var v := new AsyncUart(rx);
    assert v.Stream() == DataOf(two);
    a := v.WaitFor(needle, q);
    if r.Ok? && a.Ok? && needle != [] {
      ShortestIsUnique(DataOf(one), needle, r.bytes, a.bytes);
    }
  }

  lemma ShortestIsUnique(s: bytes, needle: bytes, a: bytes, b: bytes)
    requires ShortestThrough(s, needle, a) && ShortestThrough(s, needle, b)
    ensures a == b
  {
    assert |a| == |b|;
  }
}
