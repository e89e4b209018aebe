/** The event reader of the dashboard: it follows a named pipe of hook
    events, reports its connection status, and reconnects with a capped
    exponential backoff. The file system, the streams and the timers are not
    part of this model; each thing the outside world can do to the reader is
    a method: a connect timer fires (finding the path present or not), a
    stream opens, delivers a line, ends or fails, or the owner closes the
    reader or points it at another pipe. Streams are numbered as they are
    created; `stream` is the one the reader holds. */
module Events {
  import opened Text

  datatype ConnectionStatus = Connecting | Connected | Disconnected | Error

  /** Reconnects stop being scheduled after this many attempts in a row. */
  const MAX_RECONNECT_ATTEMPTS: nat := 50

  /** Milliseconds between checks for a pipe that does not exist yet. */
  const POLL_DELAY: real := 500.0

  /** Longest wait between reconnects, in milliseconds. */
  const MAX_DELAY: real := 5000.0

  /** `Math.pow(1.5, n)`, exact: every value up to the cap is a dyadic
      rational that a double holds exactly. */
  function Pow15(n: nat): (r: real)
    ensures r >= 1.0
  {
    if n == 0 then 1.0 else 1.5 * Pow15(n - 1)
  }

  /** The wait before reconnect number `attempts`: 100 ms times 1.5 to the
      power `attempts`, at most five seconds. */
  function BackoffDelay(attempts: nat): (d: real)
    ensures 100.0 <= d <= MAX_DELAY
    ensures d == MAX_DELAY || d == 100.0 * Pow15(attempts)
  {
    if 100.0 * Pow15(attempts) < MAX_DELAY then 100.0 * Pow15(attempts) else MAX_DELAY
  }

  lemma {:induction false} Pow15Monotone(m: nat, n: nat)
    requires m <= n
    ensures Pow15(m) <= Pow15(n)
    decreases n
  {
    if m < n {
      Pow15Monotone(m, n - 1);
    }
  }

  /** A later attempt never waits less. */
  lemma BackoffMonotone(m: nat, n: nat)
    requires m <= n
    ensures BackoffDelay(m) <= BackoffDelay(n)
  {
    Pow15Monotone(m, n);
  }

  /** The first reconnect waits 150 ms: the counter is raised before the delay is taken. */
  lemma FirstBackoff()
    ensures BackoffDelay(1) == 150.0
  {
  }

  /** The cap is reached exactly from the tenth attempt on. */
  lemma BackoffCapped(n: nat)
    ensures BackoffDelay(n) == MAX_DELAY <==> n >= 10
  {
    assert Pow15(9) < 50.0 by {
      assert Pow15(9) == 19683.0 / 512.0;
    }
    assert Pow15(10) > 50.0 by {
      assert Pow15(10) == 59049.0 / 1024.0;
    }
    if n >= 10 {
      Pow15Monotone(10, n);
    } else {
      Pow15Monotone(n, 9);
    }
  }

  /** The status history after moving from `current` to `next`: a status
      event is emitted only on a change. */
  function Emit(log: seq<ConnectionStatus>, current: ConnectionStatus, next: ConnectionStatus): seq<ConnectionStatus>
  {
    if current == next then log else log + [next]
  }

  /** No status follows itself in `h`. */
  predicate NoRepeats(h: seq<ConnectionStatus>)
  {
    forall i :: 0 < i < |h| ==> h[i - 1] != h[i]
  }

  class EventReader {
    var fifoPath: string
    var closed: bool
    var reconnectAttempts: nat
    var status: ConnectionStatus
    var lastEventTime: int
    /** The stream (and its line reader) the reader holds, if any. */
    var stream: Option<nat>
    /** Streams created so far; they are numbered 0, 1, ... */
    var streamCount: nat
    /** Streams torn down by `cleanup`; they emit nothing more. */
    var destroyed: set<nat>
    /** Streams whose one-shot 'open' handler has already run. */
    var openedStreams: set<nat>
    /** Pending connect timers, by delay in milliseconds, in the order they were set. */
    var timers: seq<real>
    /** The payloads of the emitted 'status' events, in order. */
    var statusLog: seq<ConnectionStatus>
    /** The lines whose events were emitted, in order. */
    var events: seq<string>

    /** The reader's invariant: the attempt counter is within its ceiling,
        the emitted statuses are the changes of `status` from the initial
        Connecting with no repeats, and only live streams are held. */
    predicate Valid()
      reads this
    {
      reconnectAttempts <= MAX_RECONNECT_ATTEMPTS
      && NoRepeats([Connecting] + statusLog)
      && ([Connecting] + statusLog)[|statusLog|] == status
      && (stream.Some? ==> stream.value < streamCount && stream.value !in destroyed)
      && (forall d :: d in destroyed ==> d < streamCount)
    }

    /** A stream that exists and has not been torn down. Its line and 'end'
        handlers run only while it is live; 'open' and 'error' may still
        arrive for a stream destroyed while its open was pending, since
        teardown removes no listener. */
    predicate Live(s: nat)
      reads this
    {
      s < streamCount && s !in destroyed
    }

    /** Starts in Connecting and tries to connect at once, finding the path
        present or not and the stream creation failing or not. */
    constructor(fifoPath: string, pathExists: bool, createThrows: bool)
      ensures Valid()
      ensures this.fifoPath == fifoPath && !closed && lastEventTime == 0 && events == [] && openedStreams == {}
      ensures !pathExists ==>
        status == Connecting && statusLog == [] && timers == [POLL_DELAY]
        && reconnectAttempts == 0 && stream.None? && streamCount == 0
      ensures pathExists && createThrows ==>
        status == Error && statusLog == [Error] && timers == [BackoffDelay(1)]
        && reconnectAttempts == 1 && stream.None? && streamCount == 0
      ensures pathExists && !createThrows ==>
        status == Connecting && statusLog == [] && timers == []
        && reconnectAttempts == 0 && stream == Some(0) && streamCount == 1
    {
      this.fifoPath := fifoPath;
      closed := false;
      reconnectAttempts := 0;
      status := Connecting;
      lastEventTime := 0;
      stream := None;
      streamCount := 0;
      destroyed := {};
      openedStreams := {};
      timers := [];
      statusLog := [];
      events := [];
      new;
      Connect(pathExists, createThrows);
    }

    /** `setStatus`: emits only when the status changes. */
    method SetStatus(next: ConnectionStatus)
      requires Valid()
      modifies this
      ensures Valid()
      ensures status == next && statusLog == Emit(old(statusLog), old(status), next)
      ensures fifoPath == old(fifoPath) && closed == old(closed) && reconnectAttempts == old(reconnectAttempts)
      ensures lastEventTime == old(lastEventTime) && stream == old(stream) && streamCount == old(streamCount)
      ensures destroyed == old(destroyed) && timers == old(timers) && events == old(events)
      ensures openedStreams == old(openedStreams)
    {
      if status != next {
        status := next;
        statusLog := statusLog + [next];
        assert ([Connecting] + statusLog) == ([Connecting] + old(statusLog)) + [next];
      }
    }

    /** `cleanup`: tears down the held stream, if any. */
    method Cleanup()
      requires Valid()
      modifies this
      ensures Valid()
      ensures stream.None?
      ensures destroyed == if old(stream).Some? then old(destroyed) + {old(stream).value} else old(destroyed)
      ensures fifoPath == old(fifoPath) && closed == old(closed) && reconnectAttempts == old(reconnectAttempts)
      ensures status == old(status) && statusLog == old(statusLog) && lastEventTime == old(lastEventTime)
      ensures streamCount == old(streamCount) && timers == old(timers) && events == old(events)
      ensures openedStreams == old(openedStreams)
    {
      if stream.Some? {
        destroyed := destroyed + {stream.value};
      }
      stream := None;
    }

    /** `scheduleReconnect`: nothing once closed; at the ceiling the status
        becomes Error and no timer is set; otherwise the counter is raised
        and a timer is set for the backoff delay of the new count. */
    method ScheduleReconnect()
      requires Valid()
      modifies this
      ensures Valid()
      ensures old(closed) ==>
        status == old(status) && statusLog == old(statusLog)
        && reconnectAttempts == old(reconnectAttempts) && timers == old(timers)
      ensures !old(closed) && old(reconnectAttempts) >= MAX_RECONNECT_ATTEMPTS ==>
        status == Error && statusLog == Emit(old(statusLog), old(status), Error)
        && reconnectAttempts == old(reconnectAttempts) && timers == old(timers)
      ensures !old(closed) && old(reconnectAttempts) < MAX_RECONNECT_ATTEMPTS ==>
        status == old(status) && statusLog == old(statusLog)
        && reconnectAttempts == old(reconnectAttempts) + 1
        && timers == old(timers) + [BackoffDelay(reconnectAttempts)]
      ensures fifoPath == old(fifoPath) && closed == old(closed) && lastEventTime == old(lastEventTime)
      ensures stream == old(stream) && streamCount == old(streamCount) && destroyed == old(destroyed)
      ensures events == old(events)
      ensures openedStreams == old(openedStreams)
    {
      if closed {
        return;
      }
      if reconnectAttempts >= MAX_RECONNECT_ATTEMPTS {
        SetStatus(Error);
        return;
      }
      reconnectAttempts := reconnectAttempts + 1;
      timers := timers + [BackoffDelay(reconnectAttempts)];
    }

    /** `connect`: nothing once closed; a missing path sets Connecting and
        polls again; a stream creation that throws sets Error and schedules
        a reconnect; otherwise a new stream is created and held (one held
        before is dropped without being torn down). */
    method Connect(pathExists: bool, createThrows: bool)
      requires Valid()
      modifies this
      ensures Valid()
      ensures old(closed) ==>
        status == old(status) && statusLog == old(statusLog) && timers == old(timers)
        && reconnectAttempts == old(reconnectAttempts) && stream == old(stream) && streamCount == old(streamCount)
      ensures !old(closed) && !pathExists ==>
        status == Connecting && statusLog == Emit(old(statusLog), old(status), Connecting)
        && timers == old(timers) + [POLL_DELAY]
        && reconnectAttempts == old(reconnectAttempts) && stream == old(stream) && streamCount == old(streamCount)
      ensures !old(closed) && pathExists && createThrows ==>
        statusLog == Emit(old(statusLog), old(status), Error) && status == Error
        && stream == old(stream) && streamCount == old(streamCount)
        && (old(reconnectAttempts) >= MAX_RECONNECT_ATTEMPTS ==>
              reconnectAttempts == old(reconnectAttempts) && timers == old(timers))
        && (old(reconnectAttempts) < MAX_RECONNECT_ATTEMPTS ==>
              reconnectAttempts == old(reconnectAttempts) + 1
              && timers == old(timers) + [BackoffDelay(reconnectAttempts)])
      ensures !old(closed) && pathExists && !createThrows ==>
        stream == Some(old(streamCount)) && streamCount == old(streamCount) + 1
        && status == old(status) && statusLog == old(statusLog) && timers == old(timers)
        && reconnectAttempts == old(reconnectAttempts)
      ensures fifoPath == old(fifoPath) && closed == old(closed) && lastEventTime == old(lastEventTime)
      ensures destroyed == old(destroyed) && events == old(events)
      ensures openedStreams == old(openedStreams)
    {
      if closed {
        return;
      }
      if !pathExists {
        SetStatus(Connecting);
        timers := timers + [POLL_DELAY];
        return;
      }
      if createThrows {
        SetStatus(Error);
        ScheduleReconnect();
        return;
      }
      stream := Some(streamCount);
      streamCount := streamCount + 1;
    }

    /** The pending timer `i` fires and calls `connect`: the timer is gone,
        and `connect` has the effect it has on the remaining timers. */
    method TimerFired(i: nat, pathExists: bool, createThrows: bool)
      requires Valid() && i < |timers|
      modifies this
      ensures Valid()
      ensures old(closed) ==>
        status == old(status) && statusLog == old(statusLog)
        && timers == old(timers[..i] + timers[i + 1..])
        && reconnectAttempts == old(reconnectAttempts) && stream == old(stream) && streamCount == old(streamCount)
      ensures !old(closed) && !pathExists ==>
        status == Connecting && statusLog == Emit(old(statusLog), old(status), Connecting)
        && timers == old(timers[..i] + timers[i + 1..]) + [POLL_DELAY]
        && reconnectAttempts == old(reconnectAttempts) && stream == old(stream) && streamCount == old(streamCount)
      ensures !old(closed) && pathExists && createThrows ==>
        status == Error && statusLog == Emit(old(statusLog), old(status), Error)
        && stream == old(stream) && streamCount == old(streamCount)
        && (old(reconnectAttempts) >= MAX_RECONNECT_ATTEMPTS ==>
              reconnectAttempts == old(reconnectAttempts) && timers == old(timers[..i] + timers[i + 1..]))
        && (old(reconnectAttempts) < MAX_RECONNECT_ATTEMPTS ==>
              reconnectAttempts == old(reconnectAttempts) + 1
              && timers == old(timers[..i] + timers[i + 1..]) + [BackoffDelay(reconnectAttempts)])
      ensures !old(closed) && pathExists && !createThrows ==>
        stream == Some(old(streamCount)) && streamCount == old(streamCount) + 1
        && status == old(status) && statusLog == old(statusLog)
        && timers == old(timers[..i] + timers[i + 1..]) && reconnectAttempts == old(reconnectAttempts)
      ensures fifoPath == old(fifoPath) && closed == old(closed) && lastEventTime == old(lastEventTime)
      ensures events == old(events) && openedStreams == old(openedStreams) && destroyed == old(destroyed)
    {
      timers := timers[..i] + timers[i + 1..];
      Connect(pathExists, createThrows);
    }

    /** The stream `s` opens. The handler is registered with `once`: the
        first time, the status becomes Connected and the attempt counter
        starts over; later opens of the same stream do nothing. The stream
        need not be live: one torn down while opening still reports its open. */
    method StreamOpened(s: nat)
      requires Valid() && s < streamCount
      modifies this
      ensures Valid()
      ensures s !in old(openedStreams) ==>
        status == Connected && statusLog == Emit(old(statusLog), old(status), Connected)
        && reconnectAttempts == 0
      ensures s in old(openedStreams) ==>
        status == old(status) && statusLog == old(statusLog) && reconnectAttempts == old(reconnectAttempts)
      ensures openedStreams == old(openedStreams) + {s}
      ensures fifoPath == old(fifoPath) && closed == old(closed) && lastEventTime == old(lastEventTime)
      ensures stream == old(stream) && streamCount == old(streamCount) && destroyed == old(destroyed)
      ensures timers == old(timers) && events == old(events)
    {
      if s !in openedStreams {
        openedStreams := openedStreams + {s};
        SetStatus(Connected);
        reconnectAttempts := 0;
      }
    }

    /** The stream `s` delivers `line` at time `now`; `parses` says whether
        the line is valid JSON. Blank and malformed lines are dropped
        silently; a valid one stamps the time and is emitted. */
    method LineReceived(s: nat, line: string, parses: bool, now: int)
      requires Valid() && Live(s)
      modifies this
      ensures Valid()
      ensures IsBlank(line) || !parses ==> events == old(events) && lastEventTime == old(lastEventTime)
      ensures !IsBlank(line) && parses ==> events == old(events) + [line] && lastEventTime == now
      ensures fifoPath == old(fifoPath) && closed == old(closed) && reconnectAttempts == old(reconnectAttempts)
      ensures status == old(status) && statusLog == old(statusLog)
      ensures stream == old(stream) && streamCount == old(streamCount) && destroyed == old(destroyed)
      ensures timers == old(timers)
      ensures openedStreams == old(openedStreams)
    {
      if Trim(line) == [] {
        return;
      }
      if parses {
        lastEventTime := now;
        events := events + [line];
      }
    }

    /** The handler shared by 'end' and 'error': tear down, and unless
        closed, report `next` and schedule a reconnect. */
    method StreamStopped(next: ConnectionStatus)
      requires Valid()
      modifies this
      ensures Valid()
      ensures stream.None?
      ensures destroyed == if old(stream).Some? then old(destroyed) + {old(stream).value} else old(destroyed)
      ensures old(closed) ==>
        status == old(status) && statusLog == old(statusLog)
        && reconnectAttempts == old(reconnectAttempts) && timers == old(timers)
      ensures !old(closed) && old(reconnectAttempts) >= MAX_RECONNECT_ATTEMPTS ==>
        status == Error && statusLog == Emit(Emit(old(statusLog), old(status), next), next, Error)
        && reconnectAttempts == old(reconnectAttempts) && timers == old(timers)
      ensures !old(closed) && old(reconnectAttempts) < MAX_RECONNECT_ATTEMPTS ==>
        status == next && statusLog == Emit(old(statusLog), old(status), next)
        && reconnectAttempts == old(reconnectAttempts) + 1
        && timers == old(timers) + [BackoffDelay(reconnectAttempts)]
      ensures fifoPath == old(fifoPath) && closed == old(closed) && lastEventTime == old(lastEventTime)
      ensures streamCount == old(streamCount) && events == old(events)
      ensures openedStreams == old(openedStreams)
    {
      Cleanup();
      if !closed {
        SetStatus(next);
        ScheduleReconnect();
      }
    }

    /** The stream `s` ends: torn down, and unless closed, Disconnected is
        reported and a reconnect scheduled (Error at the ceiling). */
    method StreamEnded(s: nat)
      requires Valid() && Live(s)
      modifies this
      ensures Valid()
      ensures stream.None?
      ensures destroyed == if old(stream).Some? then old(destroyed) + {old(stream).value} else old(destroyed)
      ensures old(closed) ==>
        status == old(status) && statusLog == old(statusLog)
        && reconnectAttempts == old(reconnectAttempts) && timers == old(timers)
      ensures !old(closed) && old(reconnectAttempts) < MAX_RECONNECT_ATTEMPTS ==>
        status == Disconnected && statusLog == Emit(old(statusLog), old(status), Disconnected)
        && reconnectAttempts == old(reconnectAttempts) + 1
        && timers == old(timers) + [BackoffDelay(reconnectAttempts)]
      ensures !old(closed) && old(reconnectAttempts) >= MAX_RECONNECT_ATTEMPTS ==>
        status == Error && statusLog == Emit(Emit(old(statusLog), old(status), Disconnected), Disconnected, Error)
        && reconnectAttempts == old(reconnectAttempts) && timers == old(timers)
      ensures fifoPath == old(fifoPath) && closed == old(closed) && lastEventTime == old(lastEventTime)
      ensures streamCount == old(streamCount) && events == old(events) && openedStreams == old(openedStreams)
    {
      StreamStopped(Disconnected);
    }

    /** The stream `s` fails: the held stream is torn down, and unless
        closed, Error is reported and a reconnect scheduled below the
        ceiling. The stream need not be live: an open that fails after
        teardown still reaches this handler. */
    method StreamErrored(s: nat)
      requires Valid() && s < streamCount
      modifies this
      ensures Valid()
      ensures stream.None?
      ensures destroyed == if old(stream).Some? then old(destroyed) + {old(stream).value} else old(destroyed)
      ensures old(closed) ==>
        status == old(status) && statusLog == old(statusLog)
        && reconnectAttempts == old(reconnectAttempts) && timers == old(timers)
      ensures !old(closed) ==> status == Error && statusLog == Emit(old(statusLog), old(status), Error)
      ensures !old(closed) && old(reconnectAttempts) < MAX_RECONNECT_ATTEMPTS ==>
        reconnectAttempts == old(reconnectAttempts) + 1
        && timers == old(timers) + [BackoffDelay(reconnectAttempts)]
      ensures !old(closed) && old(reconnectAttempts) >= MAX_RECONNECT_ATTEMPTS ==>
        reconnectAttempts == old(reconnectAttempts) && timers == old(timers)
      ensures fifoPath == old(fifoPath) && closed == old(closed) && lastEventTime == old(lastEventTime)
      ensures streamCount == old(streamCount) && events == old(events) && openedStreams == old(openedStreams)
    {
      StreamStopped(Error);
    }

    /** `close`: closed, torn down and Disconnected. */
    method Close()
      requires Valid()
      modifies this
      ensures Valid()
      ensures closed && stream.None? && status == Disconnected
      ensures statusLog == Emit(old(statusLog), old(status), Disconnected)
      ensures destroyed == if old(stream).Some? then old(destroyed) + {old(stream).value} else old(destroyed)
      ensures fifoPath == old(fifoPath) && reconnectAttempts == old(reconnectAttempts)
      ensures lastEventTime == old(lastEventTime) && streamCount == old(streamCount)
      ensures timers == old(timers) && events == old(events)
      ensures openedStreams == old(openedStreams)
    {
      closed := true;
      Cleanup();
      SetStatus(Disconnected);
    }

    /** `switchFifo`: tears down, follows the new path with a fresh attempt
        counter, reopens if closed, reports Connecting and connects. */
    method SwitchFifo(newFifoPath: string, pathExists: bool, createThrows: bool)
      requires Valid()
      modifies this
      ensures Valid()
      ensures fifoPath == newFifoPath && !closed
      ensures destroyed == if old(stream).Some? then old(destroyed) + {old(stream).value} else old(destroyed)
      ensures !pathExists ==>
        status == Connecting && statusLog == Emit(old(statusLog), old(status), Connecting)
        && reconnectAttempts == 0 && timers == old(timers) + [POLL_DELAY]
        && stream.None? && streamCount == old(streamCount)
      ensures pathExists && createThrows ==>
        status == Error && statusLog == Emit(old(statusLog), old(status), Connecting) + [Error]
        && reconnectAttempts == 1 && timers == old(timers) + [BackoffDelay(1)]
        && stream.None? && streamCount == old(streamCount)
      ensures pathExists && !createThrows ==>
        status == Connecting && statusLog == Emit(old(statusLog), old(status), Connecting)
        && reconnectAttempts == 0 && timers == old(timers)
        && stream == Some(old(streamCount)) && streamCount == old(streamCount) + 1
      ensures lastEventTime == old(lastEventTime) && events == old(events)
      ensures openedStreams == old(openedStreams)
    {
      Cleanup();
      fifoPath := newFifoPath;
      reconnectAttempts := 0;
      closed := false;
      SetStatus(Connecting);
      Connect(pathExists, createThrows);
    }
  }

  /** A file holding a valid event, a line that is not JSON and another
      valid event, read until the reader is closed: the two events in
      order, and the statuses Connected then Disconnected. */
  method ReadThreeLines(path: string, first: string, second: string, now: int)
    returns (events: seq<string>, statuses: seq<ConnectionStatus>)
    requires !IsBlank(first) && !IsBlank(second)
    ensures events == [first, second]
    ensures statuses == [Connected, Disconnected]
  {
    var reader := new EventReader(path, true, false);
    reader.StreamOpened(0);
    reader.LineReceived(0, first, true, now);
    assert !IsBlank("not json") by {
      assert !IsJsWhitespace("not json"[0]);
    }
    reader.LineReceived(0, "not json", false, now);
    reader.LineReceived(0, second, true, now);
    reader.Close();
    events := reader.events;
    statuses := reader.statusLog;
  }

  /** A reader closed while it polls for a missing pipe: the pending timer
      still fires, but nothing is connected and the status stays Disconnected. */
  method CloseWhilePolling(path: string)
    returns (status: ConnectionStatus, streams: nat, pending: seq<real>)
    ensures status == Disconnected && streams == 0 && pending == []
  {
    var reader := new EventReader(path, false, false);
    reader.Close();
    reader.TimerFired(0, true, false);
    status := reader.status;
    streams := reader.streamCount;
    pending := reader.timers;
  }

  /** A poll timer set while the pipe was missing outlives a `switchFifo`
      that connects at once: when it fires, `connect` replaces the held
      stream without tearing it down, and when that abandoned stream ends
      its handler tears down the stream the reader was reading from. */
  method StaleTimerAfterSwitch(path: string)
    returns (held: Option<nat>, readingStreamDestroyed: bool, status: ConnectionStatus)
    ensures held.None? && readingStreamDestroyed && status == Disconnected
  {
    var reader := new EventReader(path, false, false);
    reader.SwitchFifo(path, true, false);
    reader.TimerFired(0, true, false);
    reader.StreamEnded(0);
    held := reader.stream;
    readingStreamDestroyed := 1 in reader.destroyed;
    status := reader.status;
  }

  /** A reader closed before its stream finishes opening: the pending open
      still runs the handler, which reports Connected on a closed reader. */
  method CloseBeforeOpen(path: string)
    returns (closed: bool, status: ConnectionStatus, attempts: nat)
    ensures closed && status == Connected && attempts == 0
  {
    var reader := new EventReader(path, true, false);
    reader.Close();
    reader.StreamOpened(0);
    closed := reader.closed;
    status := reader.status;
    attempts := reader.reconnectAttempts;
  }

  /** A `switchFifo` issued while the first stream is still opening: the
      old stream's open reports Connected although the new stream, the one
      held, has not opened. */
  method SwitchBeforeOpen(path: string, newPath: string)
    returns (held: Option<nat>, heldOpened: bool, status: ConnectionStatus)
    ensures held == Some(1) && !heldOpened && status == Connected
  {
    var reader := new EventReader(path, true, false);
    reader.SwitchFifo(newPath, true, false);
    reader.StreamOpened(0);
    held := reader.stream;
    heldOpened := 1 in reader.openedStreams;
    status := reader.status;
  }

  /** An open that fails after `close`: the error handler finds no stream
      to tear down and, the reader being closed, changes nothing else. */
  method ErrorAfterClose(path: string)
    returns (status: ConnectionStatus, pending: seq<real>)
    ensures status == Disconnected && pending == []
  {
    var reader := new EventReader(path, true, false);
    reader.Close();
    reader.StreamErrored(0);
    status := reader.status;
    pending := reader.timers;
  }

  /** An open that fails after `switchFifo` has already connected anew: the
      stale error tears down the new stream, reports Error and schedules a
      reconnect. */
  method ErrorAfterSwitch(path: string, newPath: string)
    returns (held: Option<nat>, newStreamDestroyed: bool, status: ConnectionStatus, pending: seq<real>)
    ensures held.None? && newStreamDestroyed && status == Error && pending == [BackoffDelay(1)]
  {
    var reader := new EventReader(path, true, false);
    reader.SwitchFifo(newPath, true, false);
    reader.StreamErrored(0);
    held := reader.stream;
    newStreamDestroyed := 1 in reader.destroyed;
    status := reader.status;
    pending := reader.timers;
  }
}
