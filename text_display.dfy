/** The one-shot, per-process text display driver (`TextDisplay`) of
    chapters 8 and 9, whose two versions behave alike and differ only in the
    kernel interface they are written against. A process shares a read-only
    buffer, then command 1 shows its first `len` bytes one character per
    alarm period, and a single upcall reports the end of the run.

    The kernel's grant is a map from process to its `AppData`: entering the
    grant of a process succeeds exactly when the map holds it. Each arming of
    the alarm is logged in `alarms` (its delay in milliseconds), each upcall
    in `upcalls`. */
module TextDisplay {
  import opened Tock
  import opened Font
  import opened Matrix

  /** A read-only buffer shared by a process: its bytes, and whether the
      kernel can still reach them. */
  datatype ProcessBuffer = ProcessBuffer(bytes: seq<byte>, accessible: bool)

  /** The buffer a process has not shared anything in yet. */
  const NO_BUFFER: ProcessBuffer := ProcessBuffer([], true)

  /** `buffer.len()`: a buffer the kernel cannot reach has length 0. */
  function Length(b: ProcessBuffer): (n: nat)
    ensures n <= |b.bytes|
    ensures b.accessible ==> n == |b.bytes|
  {
    if b.accessible then |b.bytes| else 0
  }

  /** What the driver keeps for each process: the shared buffer, the
      position shown next, the length of the text and the delay between
      characters. */
  datatype AppData = AppData(buffer: ProcessBuffer, position: nat, len: nat, delayMs: nat)

  /** `AppData::default()`, a process's data before anything was shared. */
  const DEFAULT_APP: AppData := AppData(NO_BUFFER, 0, 0, 0)

  /** The text a process's data describes is within its buffer, and the
      position is within the text. */
  predicate Consistent(app: AppData) {
    app.position <= app.len <= |app.buffer.bytes|
  }

  /** The upcalls the driver schedules: the end of a run, or a run stopped
      because the buffer could not be read. */
  datatype Upcall = Done(process: ProcessId) | Failed(process: ProcessId, code: ErrorCode)

  /** What one alarm period does to a run in progress. */
  datatype Tick =
    | Show(b: byte)    // show this byte's character and wait `delay_ms` again
    | AccessFailed     // the buffer cannot be read: stop with NOMEM
    | Finished         // the whole text was shown: stop with success

  function TickOf(app: AppData): (t: Tick)
    requires Consistent(app)
    ensures t.Finished? <==> app.position >= app.len
    ensures t.AccessFailed? <==> app.position < app.len && !app.buffer.accessible
  {
    if app.position < app.len then
      if app.buffer.accessible then Show(app.buffer.bytes[app.position]) else AccessFailed
    else
      Finished
  }

  /** The process's data after the tick: one position further when a
      character was shown, unchanged otherwise. */
  function AfterTick(app: AppData): (a: AppData)
    requires Consistent(app)
    ensures Consistent(a)
    ensures a.buffer == app.buffer && a.len == app.len && a.delayMs == app.delayMs
    ensures a.position == if TickOf(app).Show? then app.position + 1 else app.position
  {
    if TickOf(app).Show? then app.(position := app.position + 1) else app
  }

  /** The ticks of a run, from the data's current position to the tick that
      ends it. */
  function Run(app: AppData): (ticks: seq<Tick>)
    requires Consistent(app)
    ensures |ticks| > 0 && !ticks[|ticks| - 1].Show?
    ensures forall i :: 0 <= i < |ticks| - 1 ==> ticks[i].Show?
    decreases app.len - app.position
  {
    var t := TickOf(app);
    if t.Show? then [t] + Run(AfterTick(app)) else [t]
  }

  /** A run over a readable buffer shows the text's characters once each,
      in order, and then ends exactly once, with success. */
  lemma {:induction false} RunShowsText(app: AppData)
    requires Consistent(app) && app.buffer.accessible
    ensures Run(app) ==
      seq(app.len - app.position, i requires 0 <= i < app.len - app.position =>
        Show(app.buffer.bytes[app.position + i])) + [Finished]
    decreases app.len - app.position
  {
    if app.position < app.len {
      RunShowsText(AfterTick(app));
    }
  }

  /** A run over an unreadable buffer stops at once with NOMEM, unless the
      text is already exhausted. */
  lemma RunOnLostBuffer(app: AppData)
    requires Consistent(app) && !app.buffer.accessible
    ensures Run(app) == if app.position < app.len then [AccessFailed] else [Finished]
  {
  }

  /** The answer of `allow_readonly`: the buffer shared before, or the
      offered buffer handed back with an error. */
  datatype AllowAnswer =
    | Allowed(previous: ProcessBuffer)
    | NotAllowed(offered: ProcessBuffer, code: ErrorCode)

  class TextDisplay {
    /** LED 0 is upper left, LED 24 lower right. */
    const leds: array<bool>
    /** The kernel's error code for a grant that cannot be entered. */
    const enterError: ErrorCode
    var grants: map<ProcessId, AppData>
    /** Whether a run is in progress. */
    var inProgress: bool
    /** The process whose text is being shown. */
    var processId: Option<ProcessId>
    ghost var alarms: seq<nat>
    ghost var upcalls: seq<Upcall>

    ghost predicate Valid()
      reads this
    {
      && leds.Length == NUM_LEDS
      && forall p :: p in grants ==> Consistent(grants[p])
    }

    constructor Init(leds: array<bool>, enterError: ErrorCode)
      requires leds.Length == NUM_LEDS
      ensures Valid()
      ensures this.leds == leds && this.enterError == enterError
      ensures grants == map[] && !inProgress && processId == None
      ensures alarms == [] && upcalls == []
    {
      this.leds := leds;
      this.enterError := enterError;
      grants := map[];
      inProgress := false;
      processId := None;
      alarms := [];
      upcalls := [];
    }

    /** `new`: panics unless exactly 25 LEDs are supplied; no run is in
        progress. */
    static method New(leds: array<bool>, enterError: ErrorCode) returns (r: Outcome<TextDisplay>)
      ensures r.Panics? <==> leds.Length != NUM_LEDS
      ensures r.Returns? ==>
        && fresh(r.value) && r.value.Valid()
        && r.value.leds == leds && r.value.enterError == enterError
        && r.value.grants == map[] && !r.value.inProgress && r.value.processId == None
        && r.value.alarms == [] && r.value.upcalls == []
    {
      if leds.Length != NUM_LEDS {
        return Panics;
      }
      var d := new TextDisplay.Init(leds, enterError);
      return Returns(d);
    }

    /** `display_next`: one tick of the run in progress, if there is one.
        The run stops, with `in_progress` cleared, when the process has no
        grant any more, when its buffer cannot be read (NOMEM upcall) and
        when the text is exhausted (success upcall). */
    method DisplayNext()
      requires Valid()
      modifies this`inProgress, this`grants, leds, this`alarms, this`upcalls
      ensures Valid()
      ensures !old(inProgress) ==>
        && !inProgress && grants == old(grants) && leds[..] == old(leds[..])
        && alarms == old(alarms) && upcalls == old(upcalls)
      ensures old(inProgress) && (processId.None? || processId.value !in grants) ==>
        && !inProgress && grants == old(grants) && leds[..] == old(leds[..])
        && alarms == old(alarms) && upcalls == old(upcalls)
      ensures old(inProgress) && processId.Some? && processId.value in old(grants) ==>
        var p := processId.value;
        var app := old(grants)[p];
        && grants == old(grants)[p := AfterTick(app)]
        && inProgress == TickOf(app).Show?
        && match TickOf(app)
           case Show(b) =>
             leds[..] == Displayed(CharOf(b)) && alarms == old(alarms) + [AsU32(app.delayMs)]
             && upcalls == old(upcalls)
           case AccessFailed =>
             leds[..] == old(leds[..]) && alarms == old(alarms)
             && upcalls == old(upcalls) + [Failed(p, NOMEM)]
           case Finished =>
             leds[..] == old(leds[..]) && alarms == old(alarms)
             && upcalls == old(upcalls) + [Done(p)]
    {
      if !inProgress {
        return;
      }
      if processId.None? {
        inProgress := false;
        return;
      }
      var p := processId.value;
      if p !in grants {
        // The grant cannot be entered: the process is gone.
        inProgress := false;
        return;
      }
      var app := grants[p];
      if app.position < app.len {
        if app.buffer.accessible {
          var _ := ShowCharacter(leds, CharOf(app.buffer.bytes[app.position]));
          alarms := alarms + [AsU32(app.delayMs)];
          grants := grants[p := app.(position := app.position + 1)];
        } else {
          inProgress := false;
          upcalls := upcalls + [Failed(p, NOMEM)];
        }
      } else {
        inProgress := false;
        upcalls := upcalls + [Done(p)];
      }
    }

    /** `AlarmClient::alarm`: the next tick. */
    method Alarm()
      requires Valid()
      modifies this`inProgress, this`grants, leds, this`alarms, this`upcalls
      ensures Valid()
      ensures !old(inProgress) ==>
        && !inProgress && grants == old(grants) && leds[..] == old(leds[..])
        && alarms == old(alarms) && upcalls == old(upcalls)
      ensures old(inProgress) && (processId.None? || processId.value !in grants) ==>
        && !inProgress && grants == old(grants) && leds[..] == old(leds[..])
        && alarms == old(alarms) && upcalls == old(upcalls)
      ensures old(inProgress) && processId.Some? && processId.value in old(grants) ==>
        var p := processId.value;
        var app := old(grants)[p];
        && grants == old(grants)[p := AfterTick(app)]
        && inProgress == TickOf(app).Show?
        && match TickOf(app)
           case Show(b) =>
             leds[..] == Displayed(CharOf(b)) && alarms == old(alarms) + [AsU32(app.delayMs)]
             && upcalls == old(upcalls)
           case AccessFailed =>
             leds[..] == old(leds[..]) && alarms == old(alarms)
             && upcalls == old(upcalls) + [Failed(p, NOMEM)]
           case Finished =>
             leds[..] == old(leds[..]) && alarms == old(alarms)
             && upcalls == old(upcalls) + [Done(p)]
    {
      DisplayNext();
    }

    /** `allow_readonly`: number 0 swaps the offered buffer in, resets the
        process's position, length and delay, and hands the previous buffer
        back; a process whose grant cannot be entered gets the offered
        buffer back. Every other number is NOSUPPORT. */
    method AllowReadonly(process: ProcessId, allowNumber: nat, offered: ProcessBuffer)
      returns (r: AllowAnswer)
      requires Valid()
      modifies this`grants
      ensures Valid()
      ensures allowNumber != 0 ==> r == NotAllowed(offered, NOSUPPORT) && grants == old(grants)
      ensures allowNumber == 0 && process !in old(grants) ==>
        r == NotAllowed(offered, enterError) && grants == old(grants)
      ensures allowNumber == 0 && process in old(grants) ==>
        && r == Allowed(old(grants)[process].buffer)
        && grants == old(grants)[process := AppData(offered, 0, 0, 0)]
    {
      if allowNumber != 0 {
        return NotAllowed(offered, NOSUPPORT);
      }
      if process !in grants {
        return NotAllowed(offered, enterError);
      }
      var previous := grants[process].buffer;
      grants := grants[process := AppData(offered, 0, 0, 0)];
      return Allowed(previous);
    }

    /** `allocate_grant`: entering the grant of a process the kernel has
        room for creates its default data. */
    method AllocateGrant(process: ProcessId, room: bool) returns (r: Result)
      requires Valid()
      modifies this`grants
      ensures Valid()
      ensures process in old(grants) ==> r == Ok && grants == old(grants)
      ensures process !in old(grants) && room ==> r == Ok && grants == old(grants)[process := DEFAULT_APP]
      ensures process !in old(grants) && !room ==> r == Err(enterError) && grants == old(grants)
    {
      if process in grants {
        return Ok;
      }
      if !room {
        return Err(enterError);
      }
      grants := grants[process := DEFAULT_APP];
      return Ok;
    }

    /** `command`: 0 answers that the driver exists; 1 starts showing the
        first `r2` bytes of the process's buffer, `r3` milliseconds each,
        and shows the first at once; every other number is NOSUPPORT.
        Command 1 is refused with BUSY during a run, with the grant error for
        a process whose grant cannot be entered, with NOMEM when no buffer is
        shared and with SIZE when `r2` exceeds the buffer; a refusal changes
        nothing. */
    method Command(commandNumber: nat, r2: nat, r3: nat, process: ProcessId)
      returns (r: CommandReturn)
      requires Valid()
      modifies this`inProgress, this`processId, this`grants, leds, this`alarms, this`upcalls
      ensures Valid()
      ensures r != Success ==> unchanged(this) && unchanged(leds)
      ensures commandNumber != 1 ==> unchanged(this) && unchanged(leds)
      ensures commandNumber == 0 ==> r == Success
      ensures commandNumber > 1 ==> r == Failure(NOSUPPORT)
      ensures commandNumber == 1 ==>
        r == if old(inProgress) then Failure(BUSY)
             else if process !in old(grants) then Failure(enterError)
             else if Length(old(grants)[process].buffer) == 0 then Failure(NOMEM)
             else if Length(old(grants)[process].buffer) < r2 then Failure(SIZE)
             else Success
      ensures commandNumber == 1 && r == Success ==>
        var started := old(grants)[process].(position := 0, len := r2, delayMs := r3);
        && processId == Some(process)
        && grants == old(grants)[process := AfterTick(started)]
        && inProgress == TickOf(started).Show?
        && match TickOf(started)
           case Show(b) =>
             leds[..] == Displayed(CharOf(b)) && alarms == old(alarms) + [AsU32(r3)]
             && upcalls == old(upcalls)
           case AccessFailed =>
             leds[..] == old(leds[..]) && alarms == old(alarms)
             && upcalls == old(upcalls) + [Failed(process, NOMEM)]
           case Finished =>
             leds[..] == old(leds[..]) && alarms == old(alarms)
             && upcalls == old(upcalls) + [Done(process)]
    {
      if commandNumber == 0 {
        return Success;
      }
      if commandNumber > 1 {
        return Failure(NOSUPPORT);
      }
      if inProgress {
        return Failure(BUSY);
      }
      if process !in grants {
        return Failure(enterError);
      }
      var app := grants[process];
      if Length(app.buffer) == 0 {
        return Failure(NOMEM);
      }
      if Length(app.buffer) < r2 {
        return Failure(SIZE);
      }
      grants := grants[process := app.(position := 0, len := r2, delayMs := r3)];
      processId := Some(process);
      inProgress := true;
      DisplayNext();
      return Success;
    }
  }
}
