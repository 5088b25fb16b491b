/** The sensor bridge as a state machine: the read loop's held-over
    remainder and connection flag, the sequence counter of the parser and
    the last published batch that `capture_recognized_objects` reads. */
module Bridge {
  import opened Wrappers
  import opened Lines
  import opened Framer
  import opened Parser

  /** The structured batch: the sequence number of its header and the objects. */
  datatype SensorData = SensorData(seqno: nat, objects: seq<RecognizedObject>)

  /** What `parse_sensor_string` returns, and the counter it leaves behind. */
  datatype Parsed = Parsed(data: SensorData, byName: map<string, DetectionObj>, next: nat)

  /** `parse_sensor_string` with its counter: the header carries the counter
      as it was, and the counter advances by one on every call that returns,
      however many objects were found; a call that raises leaves it alone. */
  function ParseSensorString(seqno: nat, record: string, num: NumParser): (r: Result<Parsed, ParseError>)
    ensures r.Ok? <==> ParseRecord(record, num).Ok?
    ensures r.Ok? ==> r.value.next == seqno + 1 && r.value.data.seqno == seqno
    ensures r.Ok? ==>
              && r.value.data.objects == ParseRecord(record, num).value.objects
              && r.value.byName == ParseRecord(record, num).value.byName
  {
    var d :- ParseRecord(record, num);
    Ok(Parsed(SensorData(seqno, d.objects), d.byName, seqno + 1))
  }

  /** The worker's state. `latest` is `None` until the first publish. */
  datatype State = State(connected: bool, rem: string, seqno: nat, latest: Option<SensorData>)

  const Start: State := State(false, "", 0, None)

  /** What the read loop observes: a connection attempt and whether it
      succeeded, a received chunk (empty when the peer closed), or a failed
      read. */
  datatype Event = Connect(ok: bool) | Receive(chunk: string) | ReadFailed

  /** The framing step raised outside the loop's handler: the worker ends. */
  datatype Halt = WorkerDied(cause: FrameError)

  /** A received chunk is framed, and a forwarded record parses. */
  predicate Publishes(st: State, ev: Event, num: NumParser)
  {
    && ev.Receive?
    && st.connected
    && var f := FrameStep(st.rem, ev.chunk);
       f.Ok? && f.value.record.Some? && ParseRecord(f.value.record.value, num).Ok?
  }

  /** One pass of the read loop. */
  function Step(st: State, ev: Event, num: NumParser): (r: Result<State, Halt>)
    ensures r.Err? <==> ev.Receive? && st.connected && st.rem + ev.chunk == ""
    ensures r.Ok? ==> (r.value.seqno == st.seqno + 1 <==> Publishes(st, ev, num))
    ensures r.Ok? && !Publishes(st, ev, num) ==> r.value.seqno == st.seqno && r.value.latest == st.latest
    ensures r.Ok? && Publishes(st, ev, num) ==>
              var line := FrameStep(st.rem, ev.chunk).value.record.value;
              r.value.latest == Some(SensorData(st.seqno, ParseRecord(line, num).value.objects))
    ensures r.Ok? && ev.Connect? && !st.connected ==> r.value.rem == "" && r.value.connected == ev.ok
    ensures r.Ok? && ev.Receive? && st.connected ==>
              var buf := st.rem + ev.chunk;
              && r.value.rem == (if Fragment(buf) == "" then st.rem else Fragment(buf))
              && r.value.connected == (ev.chunk != "")
    ensures r.Ok? && !(ev.Connect? && !st.connected) && !(ev.Receive? && st.connected) ==> r.value.rem == st.rem
    ensures ev.ReadFailed? ==> r == Ok(st.(connected := false))
    ensures (ev.Connect? && st.connected) || (ev.Receive? && !st.connected) ==> r == Ok(st)
  {
    match ev
    case Connect(ok) =>
      Ok(if st.connected then st else st.(connected := ok, rem := ""))
    case ReadFailed =>
      Ok(st.(connected := false))
    case Receive(chunk) =>
      if !st.connected then Ok(st)
      else
        var st1 := st.(connected := chunk != "");
        match FrameStep(st.rem, chunk)
        case Err(e) => Err(WorkerDied(e))
        case Ok(framed) =>
          if framed.record.None? then Ok(st1.(rem := framed.rem))
          else
            match ParseSensorString(st.seqno, framed.record.value, num)
            case Err(_) => Ok(st1.(rem := framed.rem))
            case Ok(p) => Ok(st1.(rem := framed.rem, seqno := p.next, latest := Some(p.data)))
  }

  /** The events in order; the first that ends the worker ends the run. */
  function Run(st: State, evs: seq<Event>, num: NumParser): Result<State, Halt>
    decreases |evs|
  {
    if |evs| == 0 then Ok(st)
    else
      var st' :- Step(st, evs[0], num);
      Run(st', evs[1..], num)
  }

  /** `capture_recognized_objects`: the last published objects, or an empty
      list before anything was published. */
  function Capture(st: State): seq<RecognizedObject>
  {
    match st.latest
    case None => []
    case Some(d) => d.objects
  }

  /** The remainder never holds a terminator, and the last published batch
      carries the number just below the counter, which is 0 exactly while
      nothing has been published. */
  ghost predicate Inv(st: State)
  {
    && NoBreak(st.rem)
    && (st.latest.None? <==> st.seqno == 0)
    && (st.latest.Some? ==> st.latest.value.seqno + 1 == st.seqno)
  }

  lemma StartInv()
    ensures Inv(Start)
  {
  }

  lemma StepInv(st: State, ev: Event, num: NumParser)
    requires Inv(st) && Step(st, ev, num).Ok?
    ensures Inv(Step(st, ev, num).value)
  {
    var st' := Step(st, ev, num).value;
    if ev.Receive? && st.connected {
      var buf := st.rem + ev.chunk;
      if Fragment(buf) != "" {
        assert NoBreak(Fragment(buf));
      }
    }
  }

  /** Along any run the invariant holds and the counter never goes back. */
  lemma {:induction false} RunInv(st: State, evs: seq<Event>, num: NumParser)
    requires Inv(st) && Run(st, evs, num).Ok?
    ensures Inv(Run(st, evs, num).value)
    ensures Run(st, evs, num).value.seqno >= st.seqno
    decreases |evs|
  {
    if |evs| > 0 {
      StepInv(st, evs[0], num);
      RunInv(Step(st, evs[0], num).value, evs[1..], num);
    }
  }

  /** Before the first successful parse a reader gets an empty list. */
  lemma CaptureBeforePublish(evs: seq<Event>, num: NumParser)
    requires Run(Start, evs, num).Ok? && Run(Start, evs, num).value.seqno == 0
    ensures Capture(Run(Start, evs, num).value) == []
  {
    StartInv();
    RunInv(Start, evs, num);
  }

  /** A remainder that held text is emptied only by a connection attempt. */
  lemma RemainderClearedOnlyOnConnect(st: State, ev: Event, num: NumParser)
    requires Step(st, ev, num).Ok? && st.rem != "" && Step(st, ev, num).value.rem == ""
    ensures ev.Connect? && !st.connected
  {
  }

  /** The peer closing the connection before any partial line arrived makes
      the framing step index an empty list: the worker ends. */
  lemma ClosedPeerEndsWorker(num: NumParser)
    ensures Run(Start, [Connect(true), Receive("")], num) == Err(WorkerDied(NothingBuffered))
  {
    var st := Step(Start, Connect(true), num).value;
    assert st == State(true, "", 0, None);
    assert [Connect(true), Receive("")][1..] == [Receive("")];
  }
}
