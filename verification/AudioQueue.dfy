/**
 The device side of the playback queue: what a log of bank writes, submissions and retirements must
 look like for the sound hardware never to see memory change under it.
 */
module AudioDevice {
  import opened Options

  datatype Buffer = Buffer(bank: nat, frames: nat)

  /** Write: samples are stored in a bank. Queue, Dequeue, Drop: the one waiting slot. Submit: the
      hardware takes a bank over. Reject: it refuses one. Retire: it gives the active bank back. */
  datatype Event =
    | Write(bank: nat)
    | Queue(buffer: Buffer)
    | Dequeue
    | Drop
    | Submit(buffer: Buffer)
    | Reject
    | Retire

  /** The bank the hardware reads, the waiting buffer, and the buffer just taken off the queue. */
  datatype Device = Device(owner: Option<nat>, queued: Option<Buffer>, next: Option<Buffer>)

  const IDLE := Device(None, None, None)

  /** One event, or None where it would break the hardware's view of memory or lose the queue's order. */
  function Accept(d: Device, e: Event): Option<Device>
  {
    match e
    case Write(bank) =>
      if d.owner != Some(bank) && (d.queued.Some? ==> d.queued.value.bank != bank) then Some(d) else None
    case Queue(buffer) =>
      if d.owner.Some? && d.owner != Some(buffer.bank) && d.queued.None? then Some(d.(queued := Some(buffer))) else None
    case Dequeue =>
      if d.queued.Some? && d.owner.None? && d.next.None? then Some(d.(queued := None, next := d.queued)) else None
    case Drop =>
      if d.queued.Some? then Some(d.(queued := None)) else None
    case Submit(buffer) =>
      if d.owner.None? && d.queued.None? && (d.next.Some? ==> d.next.value == buffer)
      then Some(Device(Some(buffer.bank), None, None)) else None
    case Reject =>
      if d.owner.None? then Some(d.(next := None)) else None
    case Retire =>
      if d.owner.Some? then Some(d.(owner := None)) else None
  }

  /** A run, latest event last. */
  datatype Log = Start | Then(before: Log, event: Event)

  function Replay(log: Log): Option<Device>
  {
    match log
    case Start => Some(IDLE)
    case Then(before, event) =>
      match Replay(before)
      case None => None
      case Some(d) => Accept(d, event)
  }

  function Submits(log: Log): nat
  {
    match log
    case Start => 0
    case Then(before, event) => Submits(before) + if event.Submit? then 1 else 0
  }

  function Retires(log: Log): nat
  {
    match log
    case Start => 0
    case Then(before, event) => Retires(before) + if event.Retire? then 1 else 0
  }

  /** `later` continues `earlier`. */
  predicate Continues(earlier: Log, later: Log)
  {
    earlier == later || (later.Then? && Continues(earlier, later.before))
  }

  lemma {:induction false} ContinuesTransitive(a: Log, b: Log, c: Log)
    requires Continues(a, b) && Continues(b, c)
    ensures Continues(a, c)
  {
    if b != c {
      ContinuesTransitive(a, b, c.before);
    }
  }

  lemma {:induction false} ContinuesCounts(a: Log, b: Log)
    requires Continues(a, b)
    ensures Submits(a) <= Submits(b) && Retires(a) <= Retires(b)
  {
    if a != b {
      ContinuesCounts(a, b.before);
    }
  }

  /** `later` continues `earlier` without a retirement. */
  predicate StillActive(earlier: Log, later: Log)
  {
    earlier == later || (later.Then? && !later.event.Retire? && StillActive(earlier, later.before))
  }

  /** `later` continues `earlier` without taking or dropping the queued buffer. */
  predicate StillQueued(earlier: Log, later: Log)
  {
    || earlier == later
    || (later.Then? && !later.event.Dequeue? && !later.event.Drop? && StillQueued(earlier, later.before))
  }

  /** Every submission is retired, except the one that is playing. */
  lemma {:induction false} Conservation(log: Log)
    requires Replay(log).Some?
    ensures Submits(log) == Retires(log) + if Replay(log).value.owner.Some? then 1 else 0
  {
    if log.Then? {
      Conservation(log.before);
    }
  }

  lemma {:induction false} OwnedUntilRetired(start: Log, buffer: Buffer, log: Log)
    requires Replay(log).Some? && StillActive(Then(start, Submit(buffer)), log)
    ensures Replay(log).value.owner == Some(buffer.bank)
  {
    if log != Then(start, Submit(buffer)) {
      OwnedUntilRetired(start, buffer, log.before);
    }
  }

  /** Between a submission and the retirement that ends it, its bank is not written and nothing else is submitted. */
  lemma ActiveBankIsNotWritten(start: Log, buffer: Buffer, log: Log, e: Event)
    requires Replay(Then(log, e)).Some? && StillActive(Then(start, Submit(buffer)), log)
    ensures e != Write(buffer.bank) && !e.Submit?
  {
    OwnedUntilRetired(start, buffer, log);
  }

  lemma {:induction false} QueuedUntilTaken(start: Log, buffer: Buffer, log: Log)
    requires Replay(log).Some? && StillQueued(Then(start, Queue(buffer)), log)
    ensures Replay(log).value.queued == Some(buffer)
  {
    if log != Then(start, Queue(buffer)) {
      QueuedUntilTaken(start, buffer, log.before);
    }
  }

  /** While a buffer waits its bank is not written, no other is queued or submitted, and it is what the queue yields. */
  lemma QueuedBankIsNotWritten(start: Log, buffer: Buffer, log: Log, e: Event)
    requires Replay(Then(log, e)).Some? && StillQueued(Then(start, Queue(buffer)), log)
    ensures e != Write(buffer.bank) && !e.Queue? && !e.Submit?
    ensures e.Dequeue? ==> Replay(Then(log, e)).value.next == Some(buffer)
  {
    QueuedUntilTaken(start, buffer, log);
  }
}

/** ExpAudio's playback state, driven by API calls, polling and interrupts. */
module AudioQueue {
  import opened AudioDevice
  import opened Options
  import Bits
  import Resampler
  import WaveDecoder

  datatype Backend = Unavailable | Ac97 | Hda | VirtioSound

  datatype AudioError =
    | NoDevice
    | MediaNotInstalled
    | MalformedWave
    | MalformedMp3
    | UnsupportedCodec
    | MediaTooLarge
    | QueueFull
    | DmaAddress
    | ControllerTimeout

  datatype Result<T> = Ok(value: T) | Err(error: AudioError)

  /** The bank of the n-th submission: the two banks take turns, whatever is stopped or refused in between. */
  function BankOf(n: nat): (bank: nat)
    ensures bank < 2
  {
    if n == 0 then 0 else 1 - BankOf(n - 1)
  }

  lemma {:induction false} BanksAlternate(n: nat)
    ensures BankOf(n) == n % 2
  {
    if n > 0 {
      BanksAlternate(n - 1);
    }
  }

  type U16 = x: nat | x <= 0xFFFF

  type U64 = x: nat | x <= 0xFFFF_FFFF_FFFF_FFFF

  function Saturating(counter: U64, amount: nat): U64
  {
    if counter + amount < 0xFFFF_FFFF_FFFF_FFFF then counter + amount else 0xFFFF_FFFF_FFFF_FFFF
  }

  /** Blocks of 32768 words that hold a buffer, at most 32 of them. */
  function DescriptorCount(words: nat): (r: Result<int>)
    ensures r.Ok? <==> 0 < words <= 1_048_576
    ensures r.Ok? ==> 1 <= r.value <= 32 && (r.value - 1) * 32_768 < words <= r.value * 32_768
  {
    if words == 0 || words > 1_048_576 then Err(MediaTooLarge)
    else
      var count := (words + 32_767) / 32_768;
      if count == 0 || count > 32 then Err(MediaTooLarge) else Ok(count)
  }

  datatype Descriptor = Descriptor(offset: nat, words: nat, interrupt: bool)

  const UNUSED := Descriptor(0, 0, false)

  /** The 32-entry descriptor list: the first entries tile the buffer in order, none longer than a 16-bit
      word count can say, only the last of them interrupts, and the rest are empty. */
  method BuildDescriptors(words: nat, count: nat) returns (list: array<Descriptor>)
    requires DescriptorCount(words) == Ok(count)
    ensures list.Length == 32
    ensures list[0].offset == 0 && list[count - 1].offset + list[count - 1].words == words
    ensures forall i :: 0 <= i < count - 1 ==> list[i].offset + list[i].words == list[i + 1].offset
    ensures forall i :: 0 <= i < count ==> 0 < list[i].words < 0x1_0000 && (list[i].interrupt <==> i == count - 1)
    ensures forall i :: count <= i < 32 ==> list[i] == UNUSED
  {
    list := new Descriptor[32](_ => UNUSED);
    for index := 0 to 32
      invariant forall i :: 0 <= i < index && i < count ==>
        list[i] == Descriptor(i * 32_768, if i == count - 1 then words - i * 32_768 else 32_768, i == count - 1)
      invariant forall i :: 0 <= i < index && i >= count ==> list[i] == UNUSED
    {
      var offset := index * 32_768;
      if index < count {
        var rest := words - offset;
        list[index] := Descriptor(offset, if rest < 32_768 then rest else 32_768, index + 1 == count);
      } else {
        list[index] := UNUSED;
      }
    }
  }

  // Status bits: the message-signalled devices and the AC'97 register number them differently.

  /** Descriptors a backend uses for a buffer: a fixed chain, blocks of 128 KiB, or blocks of 32768 words. */
  function DescriptorsFor(backend: Backend, frames: nat): nat
  {
    if backend == VirtioSound then 3
    else if backend == Hda then (4 * frames + 131_071) / 131_072
    else (2 * frames + 32_767) / 32_768
  }

  predicate FifoError(backend: Backend, status: set<nat>)
  {
    if backend == Hda || backend == VirtioSound then 3 in status || 4 in status else 4 in status
  }

  predicate Completed(backend: Backend, status: set<nat>)
  {
    if backend == Hda || backend == VirtioSound then 2 in status else 3 in status || 2 in status
  }

  /** What the codec reports for one chunk. */
  datatype Decoded = Failed(error: AudioError) | Frames(frames: nat, finished: bool)

  predicate HasFrames(d: Decoded)
  {
    d.Frames? && d.frames != 0
  }

  /** What the media store answers for a track. */
  datatype Stored = Loaded | NotInstalled | Unreadable

  function WaveFailure(e: WaveDecoder.WaveError): AudioError
  {
    match e
    case MalformedWave => MalformedWave
    case UnsupportedCodec => UnsupportedCodec
    case MediaTooLarge => MediaTooLarge
  }

  /** A square wave: the first half of each period is high. */
  function ToneSample(frequency: U16, k: nat): Resampler.Sample
  {
    if k * frequency % 48_000 < 24_000 then 7_000 else -7_000
  }

  /** Both channels of every frame carry the tone. */
  ghost predicate Sounds(output: seq<Resampler.Sample>, frequency: U16, frames: nat)
  {
    && 2 * frames <= |output|
    && forall k :: 0 <= k < frames ==> output[2 * k] == output[2 * k + 1] == ToneSample(frequency, k)
  }

  method FillTone(output: array<Resampler.Sample>, frequency: U16, frames: nat)
    requires 2 * frames <= output.Length
    modifies output
    ensures Sounds(output[..], frequency, frames)
    ensures forall i :: 2 * frames <= i < output.Length ==> output[i] == old(output[i])
  {
    for frame := 0 to frames
      invariant forall k :: 0 <= k < frame ==> output[2 * k] == output[2 * k + 1] == ToneSample(frequency, k)
      invariant forall i :: 2 * frames <= i < output.Length ==> output[i] == old(output[i])
    {
      var phase := frame * frequency % 48_000;
      var sample := if phase < 24_000 then 7_000 else -7_000;
      output[2 * frame] := sample;
      output[2 * frame + 1] := sample;
    }
  }

  class AudioState {
    var backend: Backend
    var playing: bool
    var activeBank: nat
    var activeDescriptors: nat
    var pending: Option<Buffer>
    var submittedFrames: U64
    var completedBuffers: U64
    var queuedBuffers: U64
    var underruns: U64
    var fifoErrors: U64
    var recoveries: U64
    var media: bool
    var irqEvents: set<nat>
    var deviceEvents: set<nat>
    ghost var log: Log

    /** What the hardware sees of this state. */
    ghost function View(next: Option<Buffer>): Device
      reads this
    {
      Device(if playing then Some(activeBank) else None, pending, next)
    }

    ghost predicate Counters()
      reads this
    {
      && completedBuffers <= Retires(log)
      && recoveries <= underruns
      && fifoErrors <= underruns
      && activeBank == BankOf(Submits(log))
    }

    /** The log is one the hardware accepts, and ends in the state the driver believes in. */
    ghost predicate Valid()
      reads this
    {
      && Replay(log) == Some(View(None))
      && (pending.Some? ==> playing && pending.value.bank == 1 - activeBank)
      && (!playing ==> activeDescriptors == 0)
      && Counters()
    }

    constructor ()
      ensures Valid() && log == Start && backend == Unavailable && !playing
    {
      backend, playing, activeBank, activeDescriptors, pending := Unavailable, false, 0, 0, None;
      submittedFrames, completedBuffers, queuedBuffers := 0, 0, 0;
      underruns, fifoErrors, recoveries := 0, 0, 0;
      media, irqEvents, deviceEvents := false, {}, {};
      log := Start;
    }

    method Stop()
      requires Valid()
      modifies this
      ensures Valid() && !playing && pending.None? && !media
      ensures backend == old(backend) && activeBank == old(activeBank)
      ensures irqEvents == {} && deviceEvents == old(deviceEvents)
      ensures Continues(old(log), log) && Retires(log) == Retires(old(log)) + if old(playing) then 1 else 0
    {
      ghost var queued, active := pending.Some?, playing;
      if queued { log := Then(log, Drop); }
      if active { log := Then(log, Retire); }
      playing := false;
      activeDescriptors := 0;
      pending := None;
      media := false;
      irqEvents := {};
    }

    /** Hands a bank to the hardware, which may refuse it; the gain of the VirtIO path rewrites it first. */
    method SubmitSamples(bank: nat, frames: nat, accepts: bool) returns (r: Result<()>)
      requires !playing && pending.None? && activeDescriptors == 0 && bank == 1 - activeBank
      requires Replay(log) == Some(View(None)) || Replay(log) == Some(View(Some(Buffer(bank, frames))))
      requires Counters()
      modifies this
      ensures Valid() && pending.None?
      ensures (playing <==> r.Ok?) && (r.Err? ==> r.error != QueueFull)
      ensures activeBank == if r.Ok? then bank else old(activeBank)
      ensures log.Then? && log.event == if r.Ok? then Submit(Buffer(bank, frames)) else Reject
      ensures submittedFrames == Saturating(old(submittedFrames), if r.Ok? then frames else 0)
      ensures activeDescriptors == if r.Ok? then DescriptorsFor(backend, frames) else 0
      ensures Continues(old(log), log) && Retires(log) == Retires(old(log)) && (r.Ok? ==> accepts)
      ensures Unchanged(old(backend), old(media), old(underruns), old(completedBuffers), old(recoveries),
                        old(fifoErrors))
      ensures queuedBuffers == old(queuedBuffers)
    {
      var ready := PrepareBank(bank, frames, accepts);
      if ready.Err? {
        log := Then(log, Reject);
        return Err(ready.error);
      }
      log := Then(log, Submit(Buffer(bank, frames)));
      activeBank := bank;
      activeDescriptors := ready.value;
      playing := true;
      submittedFrames := Saturating(submittedFrames, frames);
      return Ok(());
    }

    /** The checks of the three backends, and the descriptors they use. */
    method PrepareBank(bank: nat, frames: nat, accepts: bool) returns (r: Result<int>)
      requires !playing && pending.None? && Replay(log).Some?
      requires Replay(log).value.owner.None? && Replay(log).value.queued.None?
      modifies this`log
      ensures log == if backend == VirtioSound then Then(old(log), Write(bank)) else old(log)
      ensures Replay(log) == Replay(old(log)) && Submits(log) == Submits(old(log)) && Retires(log) == Retires(old(log))
      ensures r.Ok? ==> r.value == DescriptorsFor(backend, frames) && accepts
      ensures r.Err? ==> r.error != QueueFull
      ensures backend == Ac97 && (frames == 0 || frames > 524_288) ==> r == Err(MediaTooLarge)
    {
      if backend == VirtioSound {
        log := Then(log, Write(bank));
        return if accepts then Ok(3) else Err(ControllerTimeout);
      }
      if backend == Hda {
        return if accepts then Ok((4 * frames + 131_071) / 131_072) else Err(DmaAddress);
      }
      var count := DescriptorCount(2 * frames);
      if count.Err? {
        return Err(count.error);
      }
      var list := BuildDescriptors(2 * frames, count.value);
      return if accepts then Ok(count.value) else Err(ControllerTimeout);
    }

    ghost predicate Unchanged(b: Backend, m: bool, u: U64, c: U64, r: U64, f: U64)
      reads this
    {
      backend == b && media == m && underruns == u && completedBuffers == c && recoveries == r && fifoErrors == f
    }

    /** The bank that may be written: not the one last submitted and not the one waiting. */
    method AvailableBank() returns (r: Result<nat>)
      requires Valid()
      ensures r.Err? <==> pending.Some?
      ensures r.Err? ==> r.error == QueueFull
      ensures r.Ok? ==> r.value == 1 - activeBank && Accept(View(None), Write(r.value)).Some?
    {
      if playing && pending.Some? {
        return Err(QueueFull);
      }
      return Ok((activeBank + 1) % 2);
    }

    /** The last event handed the buffer over: to the queue while another was playing, else to the hardware. */
    ghost predicate Scheduled(wasPlaying: bool, bank: nat, frames: nat)
      reads this
    {
      log.Then? && log.event == if wasPlaying then Queue(Buffer(bank, frames)) else Submit(Buffer(bank, frames))
    }

    /** Queues a written bank behind the active one, or submits it at once. */
    method ScheduleSamples(bank: nat, frames: nat, accepts: bool) returns (r: Result<()>)
      requires Valid() && pending.None? && bank == 1 - activeBank
      modifies this
      ensures Valid() && Continues(old(log), log)
      ensures old(playing) ==>
        r.Ok? && playing && pending == Some(Buffer(bank, frames)) && activeBank == old(activeBank)
      ensures !old(playing) ==> pending.None? && (playing <==> r.Ok?) && (r.Err? ==> r.error != QueueFull)
      ensures r.Ok? ==> Scheduled(old(playing), bank, frames)
      ensures queuedBuffers == Saturating(old(queuedBuffers), if old(playing) then 1 else 0)
      ensures backend == old(backend) && media == old(media)
    {
      if playing {
        pending := Some(Buffer(bank, frames));
        queuedBuffers := Saturating(queuedBuffers, 1);
        log := Then(log, Queue(Buffer(bank, frames)));
        return Ok(());
      }
      r := SubmitSamples(bank, frames, accepts);
    }

    function Status(): set<nat>
      reads this
    {
      if backend == Hda || backend == VirtioSound then deviceEvents else irqEvents
    }

    /** Status bits have arrived for a playing buffer. */
    predicate Interrupted()
      reads this
    {
      backend != Unavailable && playing && Status() != {}
    }

    predicate Faulted()
      reads this
    {
      FifoError(backend, Status()) || !Completed(backend, Status())
    }

    method TakeEvents() returns (status: set<nat>)
      modifies this`irqEvents, this`deviceEvents
      ensures status == old(Status()) && Status() == {}
      ensures backend == Hda || backend == VirtioSound ==> deviceEvents == {} && irqEvents == old(irqEvents)
      ensures backend != Hda && backend != VirtioSound ==> irqEvents == {} && deviceEvents == old(deviceEvents)
    {
      if backend == Hda || backend == VirtioSound {
        status := deviceEvents;
        deviceEvents := {};
      } else {
        status := irqEvents;
        irqEvents := {};
      }
    }

    /** Takes back the active bank, counting what the status bits say happened to it. */
    method RetireActive(status: set<nat>) returns (faulted: bool)
      requires Valid() && playing
      modifies this
      ensures log == Then(old(log), Retire) && Replay(log) == Some(View(None)) && Counters()
      ensures !playing && activeDescriptors == 0
      ensures pending == old(pending) && activeBank == old(activeBank) && backend == old(backend) && media == old(media)
      ensures faulted <==> FifoError(backend, status) || !Completed(backend, status)
      ensures completedBuffers == Saturating(old(completedBuffers), if Completed(backend, status) then 1 else 0)
      ensures fifoErrors == Saturating(old(fifoErrors), if FifoError(backend, status) then 1 else 0)
      ensures underruns == Saturating(old(underruns), if faulted then 1 else 0)
      ensures recoveries == old(recoveries)
    {
      var fifoError := FifoError(backend, status);
      if fifoError {
        fifoErrors := Saturating(fifoErrors, 1);
        underruns := Saturating(underruns, 1);
      }
      playing := false;
      activeDescriptors := 0;
      log := Then(log, Retire);
      var completed := Completed(backend, status);
      faulted := fifoError || !completed;
      if completed {
        completedBuffers := Saturating(completedBuffers, 1);
      } else if !fifoError {
        underruns := Saturating(underruns, 1);
      }
    }

    method ServiceInterrupts(accepts: bool)
      requires Valid()
      modifies this
      ensures Valid() && Continues(old(log), log)
      ensures Retires(log) == Retires(old(log)) + if old(Interrupted()) then 1 else 0
      ensures backend == old(backend) && media == old(media)
      ensures !old(Interrupted()) ==> log == old(log) && View(None) == old(View(None))
      ensures old(Interrupted()) && old(pending).None? ==> log == Then(old(log), Retire) && !playing
      ensures old(Interrupted()) && old(pending).Some? ==>
        pending.None? && log.Then? && log.event == if playing then Submit(old(pending).value) else Reject
      ensures recoveries
              == Saturating(old(recoveries),
                            if old(Interrupted() && pending.Some? && Faulted()) && playing then 1 else 0)
    {
      if backend == Unavailable || !playing {
        return;
      }
      var status := TakeEvents();
      if status == {} {
        return;
      }
      var faulted := RetireActive(status);
      if pending.Some? {
        ghost var retired := log;
        PlayPending(faulted, accepts);
        ContinuesTransitive(old(log), retired, log);
      }
    }

    /** Submits the waiting buffer after the active one has been taken back; after a fault that is a recovery. */
    method PlayPending(faulted: bool, accepts: bool)
      requires !playing && activeDescriptors == 0 && pending.Some? && pending.value.bank == 1 - activeBank
      requires Replay(log) == Some(View(None)) && Counters() && (faulted ==> Saturating(recoveries, 1) <= underruns)
      modifies this
      ensures Valid() && Continues(old(log), log) && Retires(log) == Retires(old(log))
      ensures backend == old(backend) && media == old(media)
      ensures pending.None? && log.Then? && log.event == if playing then Submit(old(pending).value) else Reject
      ensures recoveries == Saturating(old(recoveries), if faulted && playing then 1 else 0)
    {
      var queued := pending.value;
      pending := None;
      log := Then(log, Dequeue);
      ghost var dequeued := log;
      var r := SubmitSamples(queued.bank, queued.frames, accepts);
      ContinuesTransitive(old(log), dequeued, log);
      if r.Ok? && faulted {
        recoveries := Saturating(recoveries, 1);
      }
    }

    /** What feeding a track does when a bank is free: a chunk that fails is an error, an empty one ends a finished
        track once nothing plays, and any other is scheduled in the bank that was free. */
    ghost predicate Fed(wasPlaying: bool, wasActive: nat, decoded: Decoded, r: Result<()>)
      requires wasActive < 2
      reads this
    {
      match decoded
      case Failed(error) => r == Err(error) && media && playing == wasPlaying && pending.None?
      case Frames(frames, finished) =>
        if frames == 0 then r.Ok? && playing == wasPlaying && pending.None? && (media <==> !finished || playing)
        else
          && media && (wasPlaying ==> r.Ok?) && (playing <==> r.Ok?)
          && (r.Ok? ==> Scheduled(wasPlaying, 1 - wasActive, frames))
    }

    /** Decodes the next chunk of the track into the free bank and schedules it. */
    method ServiceMedia(decoded: Decoded, accepts: bool) returns (r: Result<()>)
      requires Valid()
      modifies this
      ensures Valid() && Continues(old(log), log) && backend == old(backend)
      ensures !old(media) || old(pending).Some? ==> r.Ok? && log == old(log) && unchanged(this)
      ensures old(media) && old(pending).None? ==> Fed(old(playing), old(activeBank), decoded, r)
      ensures pending.Some? ==> playing
    {
      if !media || (playing && pending.Some?) {
        return Ok(());
      }
      var bank := AvailableBank();  // the guard above leaves a bank free
      log := Then(log, Write(bank.value));
      if decoded.Failed? {
        return Err(decoded.error);
      }
      if decoded.frames != 0 {
        ghost var written := log;
        r := ScheduleSamples(bank.value, decoded.frames, accepts);
        ContinuesTransitive(old(log), written, log);
        return;
      }
      if decoded.finished && !playing {
        media := false;
      }
      return Ok(());
    }

    /** Polling: retires what has finished, then feeds the track; a track that fails stops everything. */
    method Poll(decoded: Decoded, accepts: bool, accepts': bool)
      requires Valid()
      modifies this
      ensures Valid() && Continues(old(log), log) && backend == old(backend)
      ensures media ==> old(media)
      ensures old(media) && old(pending).None? && decoded.Failed? ==> !playing && !media
      ensures old(Interrupted()) ==> Retires(log) > Retires(old(log))
    {
      ServiceInterrupts(accepts);
      ghost var serviced := log;
      var r := ServiceMedia(decoded, accepts');
      ContinuesTransitive(old(log), serviced, log);
      ContinuesCounts(serviced, log);
      if r.Err? {
        ghost var failed := log;
        Stop();
        ContinuesTransitive(old(log), failed, log);
      }
    }

    /** The store is asked before anything changes. */
    method PlayTrack(stored: Stored, first: Decoded, second: Decoded, accepts: bool, accepts': bool)
        returns (r: Result<()>)
      requires Valid()
      modifies this
      ensures Valid() && Continues(old(log), log) && backend == old(backend)
      ensures stored.NotInstalled? ==> r == Err(MediaNotInstalled) && unchanged(this)
      ensures stored.Unreadable? ==> r == Err(MalformedMp3) && unchanged(this)
      ensures r.Ok? ==> media
      ensures stored.Loaded? && backend == Unavailable ==> r == Err(NoDevice) && unchanged(this)
      ensures stored.Loaded? && r.Err? && backend != Unavailable ==> !playing && pending.None? && !media
      ensures stored.Loaded? && old(playing) && backend != Unavailable ==> Retires(log) > Retires(old(log))
      ensures r.Ok? && HasFrames(first) && HasFrames(second) ==>
        playing && pending.Some? && pending.value.frames == second.frames
    {
      match stored
      case NotInstalled => return Err(MediaNotInstalled);
      case Unreadable => return Err(MalformedMp3);
      case Loaded =>
        if backend == Unavailable {
          return Err(NoDevice);
        }
        r := StartTrack(first, second, accepts, accepts');
    }

    /** Stops what plays and fills both banks from the new track. */
    method StartTrack(first: Decoded, second: Decoded, accepts: bool, accepts': bool) returns (r: Result<()>)
      requires Valid()
      modifies this
      ensures Valid() && Continues(old(log), log) && backend == old(backend)
      ensures r.Ok? ==> media
      ensures r.Err? ==> !playing && pending.None? && !media
      ensures old(playing) ==> Retires(log) > Retires(old(log))
      ensures r.Ok? && HasFrames(first) && HasFrames(second) ==>
        playing && pending.Some? && pending.value.frames == second.frames
    {
      Stop();
      media := true;
      ghost var stopped := log;
      r := ServiceMedia(first, accepts);
      ContinuesTransitive(old(log), stopped, log);
      ContinuesCounts(stopped, log);
      if r.Ok? {
        ghost var fed := log;
        r := ServiceMedia(second, accepts');
        ContinuesTransitive(old(log), fed, log);
        ContinuesCounts(fed, log);
      }
      if r.Err? {
        ghost var failed := log;
        Stop();
        ContinuesTransitive(old(log), failed, log);
        return;
      }
      return if media then Ok(()) else Err(MalformedMp3);
    }

    /** What every sound that is not a track starts with: stop a track, retire what has finished. */
    method MakeRoom(accepts: bool)
      requires Valid()
      modifies this
      ensures Valid() && Continues(old(log), log) && backend == old(backend) && !media
      ensures old(media) ==> !playing && pending.None?
      ensures old(Interrupted()) ==> pending.None? && Retires(log) > Retires(old(log))
      ensures !old(media) && !old(Interrupted()) ==> View(None) == old(View(None)) && log == old(log)
    {
      if media {
        Stop();
      }
      ghost var stopped := log;
      ServiceInterrupts(accepts);
      ContinuesTransitive(old(log), stopped, log);
    }

    /** Writes a free bank and schedules it. */
    method FillAndSchedule(bank: nat, frames: nat, accepts: bool) returns (r: Result<()>)
      requires Valid() && pending.None? && bank == 1 - activeBank
      modifies this
      ensures Valid() && Continues(old(log), log) && backend == old(backend)
      ensures r.Ok? ==> playing && Scheduled(old(playing), bank, frames)
      ensures media == old(media) && (r.Err? ==> r.error != QueueFull)
    {
      log := Then(log, Write(bank));
      ghost var written := log;
      r := ScheduleSamples(bank, frames, accepts);
      ContinuesTransitive(old(log), written, log);
    }

    /** The last event handed over a buffer of so many frames, now active or waiting. */
    ghost predicate JustScheduled(frames: nat)
      reads this
    {
      && log.Then?
      && (|| log.event == Submit(Buffer(activeBank, frames))
          || (pending.Some? && pending.value.frames == frames && log.event == Queue(pending.value)))
    }

    /** A buffer is waiting and nothing here will make room for another. */
    predicate Full()
      reads this
    {
      !media && !Interrupted() && pending.Some?
    }

    /** Decodes the file into the free bank, whose memory is `output`, and schedules it. */
    method PlayWave(bytes: seq<Bits.Byte>, output: array<Resampler.Sample>, accepts: bool, accepts': bool)
        returns (r: Result<WaveDecoder.WaveInfo>)
      requires Valid() && output.Length == 1_048_576
      modifies this, output
      ensures Valid() && Continues(old(log), log) && backend == old(backend)
      ensures backend == Unavailable ==> r == Err(NoDevice) && log == old(log)
      ensures backend != Unavailable ==> !media && (r == Err(QueueFull) <==> old(Full()))
      ensures r == Err(QueueFull) ==> log == old(log)
      ensures r.Ok? ==> playing && JustScheduled(r.value.outputFrames) && r.value.outputFrames <= 524_288
      ensures r.Ok? ==> Decodes(bytes, output[..], r.value)
      ensures backend != Unavailable && !old(Full()) && WaveDecoder.Parse(bytes).Failure? ==>
        r == Err(WaveFailure(WaveDecoder.Parse(bytes).error)) && output[..] == old(output[..])
      ensures backend != Unavailable && !old(Full()) && TooLong(bytes) ==> r == Err(MediaTooLarge)
    {
      if backend == Unavailable {
        return Err(NoDevice);
      }
      MakeRoom(accepts);
      ghost var ready := log;
      var bank := AvailableBank();
      if bank.Err? {
        return Err(bank.error);
      }
      r := DecodeAndSchedule(bank.value, bytes, output, accepts');
      ContinuesTransitive(old(log), ready, log);
    }

    /** The file resamples to more frames than a bank holds. */
    ghost predicate TooLong(bytes: seq<Bits.Byte>)
    {
      var file := WaveDecoder.Parse(bytes);
      file.Success? && WaveDecoder.Info(file.value).outputFrames > 524_288
    }

    /** The output is the resampled file that the information describes. */
    ghost predicate Decodes(bytes: seq<Bits.Byte>, output: seq<Resampler.Sample>, info: WaveDecoder.WaveInfo)
    {
      var file := WaveDecoder.Parse(bytes);
      file.Success? && info == WaveDecoder.Info(file.value) && WaveDecoder.Holds(output, file.value)
    }

    method DecodeAndSchedule(bank: nat, bytes: seq<Bits.Byte>, output: array<Resampler.Sample>, accepts: bool)
        returns (r: Result<WaveDecoder.WaveInfo>)
      requires Valid() && pending.None? && bank == 1 - activeBank && output.Length == 1_048_576
      modifies this, output
      ensures Valid() && Continues(old(log), log) && backend == old(backend) && media == old(media)
      ensures r != Err(QueueFull)
      ensures r.Ok? ==> playing && JustScheduled(r.value.outputFrames) && r.value.outputFrames <= 524_288
      ensures r.Ok? ==> Decodes(bytes, output[..], r.value)
      ensures WaveDecoder.Parse(bytes).Failure? ==>
        r == Err(WaveFailure(WaveDecoder.Parse(bytes).error)) && output[..] == old(output[..])
      ensures TooLong(bytes) ==> r == Err(MediaTooLarge)
    {
      var decoded := WaveDecoder.Decode(bytes, output);
      if decoded.Failure? {
        return Err(WaveFailure(decoded.error));
      }
      var scheduled := FillAndSchedule(bank, decoded.value.outputFrames, accepts);
      return if scheduled.Ok? then Ok(decoded.value) else Err(scheduled.error);
    }

    /** Writes a square wave of 48 frames per millisecond into the free bank, whose memory is `output`. */
    method PlayTone(frequency: U16, milliseconds: U16, output: array<Resampler.Sample>, accepts: bool, accepts': bool)
        returns (r: Result<()>)
      requires Valid() && output.Length == 1_048_576
      modifies this, output
      ensures Valid() && Continues(old(log), log) && backend == old(backend)
      ensures backend == Unavailable ==> r == Err(NoDevice) && log == old(log)
      ensures backend != Unavailable ==> !media
      ensures backend != Unavailable && (frequency == 0 || milliseconds == 0 || milliseconds * 48 > 524_288) ==>
        r == Err(MediaTooLarge)
      ensures backend != Unavailable && frequency != 0 && 0 < milliseconds * 48 <= 524_288 ==>
        (r == Err(QueueFull) <==> old(Full()))
      ensures r == Err(QueueFull) ==> log == old(log)
      ensures r.Ok? ==> playing && JustScheduled(milliseconds * 48) && Sounds(output[..], frequency, milliseconds * 48)
    {
      if backend == Unavailable {
        return Err(NoDevice);
      }
      MakeRoom(accepts);
      var frames := 48_000 * milliseconds / 1_000;
      if frequency == 0 || frames == 0 || frames * 2 > 1_048_576 {
        return Err(MediaTooLarge);
      }
      ghost var ready := log;
      var bank := AvailableBank();
      if bank.Err? {
        return Err(bank.error);
      }
      FillTone(output, frequency, frames);
      r := FillAndSchedule(bank.value, frames, accepts');
      ContinuesTransitive(old(log), ready, log);
    }

    /** The AC'97 interrupt handler only publishes the three status bits it acknowledges. */
    method HandleLegacyInterrupt(status: set<nat>)
      requires Valid()
      modifies this`irqEvents
      ensures Valid() && irqEvents == old(irqEvents) + status * {2, 3, 4}
    {
      irqEvents := irqEvents + status * {2, 3, 4};
    }

    method HandleMessageInterrupt(status: set<nat>)
      requires Valid()
      modifies this`deviceEvents
      ensures Valid() && deviceEvents == old(deviceEvents) + status
    {
      deviceEvents := deviceEvents + status;
    }

    /** Probing, when no backend has been found yet. */
    method Initialize(found: Backend, decoded: Decoded, accepts: bool, accepts': bool)
      requires Valid()
      modifies this
      ensures Valid() && Continues(old(log), log)
      ensures backend == if old(backend) == Unavailable then found else old(backend)
    {
      if backend == Unavailable {
        backend := found;
        if found == Ac97 {
          irqEvents := {};
        }
      }
      Poll(decoded, accepts, accepts');
    }
  }

  /** Everything that can happen to the playback state, with what the outside world answers. */
  datatype Step =
    | Initialize(found: Backend, chunk: Decoded, accepts: bool, accepts': bool)
    | Stop
    | Poll(chunk: Decoded, accepts: bool, accepts': bool)
    | PlayTrack(stored: Stored, chunk: Decoded, chunk': Decoded, accepts: bool, accepts': bool)
    | PlayWave(bytes: seq<Bits.Byte>, accepts: bool, accepts': bool)
    | PlayTone(frequency: U16, milliseconds: U16, accepts: bool, accepts': bool)
    | LegacyInterrupt(status: set<nat>)
    | MessageInterrupt(status: set<nat>)

  /** The playback state at one moment, with everything that has happened so far. */
  datatype Snapshot = Snapshot(backend: Backend, playing: bool, activeBank: nat, pending: Option<Buffer>, media: bool,
                               irqEvents: set<nat>, deviceEvents: set<nat>,
                               completedBuffers: nat, underruns: nat, fifoErrors: nat, recoveries: nat, log: Log)

  ghost function Snap(state: AudioState): Snapshot
    reads state
  {
    Snapshot(state.backend, state.playing, state.activeBank, state.pending, state.media,
             state.irqEvents, state.deviceEvents,
             state.completedBuffers, state.underruns, state.fifoErrors, state.recoveries, state.log)
  }

  /** The hardware has accepted everything so far and is where the driver believes it is; a waiting buffer implies a
      playing one in the other bank; every submission but the playing one has been retired; the n-th submission used
      bank n modulo 2; and the counters keep their order. */
  ghost predicate Sound(s: Snapshot)
  {
    && Replay(s.log) == Some(Device(if s.playing then Some(s.activeBank) else None, s.pending, None))
    && (s.pending.Some? ==> s.playing && s.pending.value.bank != s.activeBank)
    && Submits(s.log) == Retires(s.log) + (if s.playing then 1 else 0)
    && s.activeBank == Submits(s.log) % 2
    && s.completedBuffers <= Retires(s.log) && s.recoveries <= s.underruns && s.fifoErrors <= s.underruns
  }

  /** What a step leaves behind, whatever the outside world answers. */
  ghost predicate Took(s: Snapshot, step: Step, t: Snapshot)
  {
    && Continues(s.log, t.log)
    && match step
       case Initialize(found, _, _, _) => t.backend == if s.backend == Unavailable then found else s.backend
       case Stop => t.backend == s.backend && !t.playing && t.pending.None? && !t.media
       case Poll(chunk, _, _) =>
         && t.backend == s.backend && (t.media ==> s.media)
         && (s.media && s.pending.None? && chunk.Failed? ==> !t.playing && !t.media)
       case PlayTrack(stored, _, _, _, _) =>
         && t.backend == s.backend
         && (if s.backend == Unavailable || !stored.Loaded? then t == s else t.media || !t.playing)
       case PlayWave(_, _, _) => t.backend == s.backend && (s.backend == Unavailable ==> t.log == s.log)
       case PlayTone(_, _, _, _) => t.backend == s.backend && (s.backend == Unavailable ==> t.log == s.log)
       case LegacyInterrupt(status) => t == s.(irqEvents := s.irqEvents + status * {2, 3, 4})
       case MessageInterrupt(status) => t == s.(deviceEvents := s.deviceEvents + status)
  }

  lemma ValidIsSound(state: AudioState)
    requires state.Valid()
    ensures Sound(Snap(state))
  {
    Conservation(state.log);
    BanksAlternate(Submits(state.log));
  }

  /** `memory` is the bank that is free. */
  method Perform(state: AudioState, step: Step, memory: array<Resampler.Sample>)
    requires state.Valid() && memory.Length == 1_048_576
    modifies state, memory
    ensures state.Valid() && Took(old(Snap(state)), step, Snap(state))
  {
    match step
    case Initialize(found, chunk, accepts, accepts') => state.Initialize(found, chunk, accepts, accepts');
    case Stop => state.Stop();
    case Poll(chunk, accepts, accepts') => state.Poll(chunk, accepts, accepts');
    case PlayTrack(stored, chunk, chunk', accepts, accepts') =>
      var r := state.PlayTrack(stored, chunk, chunk', accepts, accepts');
    case PlayWave(bytes, accepts, accepts') =>
      var r := state.PlayWave(bytes, memory, accepts, accepts');
    case PlayTone(frequency, milliseconds, accepts, accepts') =>
      var r := state.PlayTone(frequency, milliseconds, memory, accepts, accepts');
    case LegacyInterrupt(status) => state.HandleLegacyInterrupt(status);
    case MessageInterrupt(status) => state.HandleMessageInterrupt(status);
  }

  /** Over every interleaving of steps from a fresh state, every state on the way is sound. */
  method Run(steps: seq<Step>, memory: array<Resampler.Sample>) returns (state: AudioState, ghost trace: seq<Snapshot>)
    requires memory.Length == 1_048_576
    modifies memory
    ensures fresh(state) && |trace| == |steps| + 1 && trace[|steps|] == Snap(state)
    ensures trace[0].log == Start && trace[0].backend == Unavailable
    ensures forall i :: 0 <= i < |steps| ==> Took(trace[i], steps[i], trace[i + 1])
    ensures forall i :: 0 <= i <= |steps| ==> Sound(trace[i])
  {
    state := new AudioState();
    trace := [Snap(state)];
    ValidIsSound(state);
    for i := 0 to |steps|
      invariant fresh(state) && state.Valid() && |trace| == i + 1 && trace[i] == Snap(state)
      invariant trace[0].log == Start && trace[0].backend == Unavailable
      invariant forall j :: 0 <= j < i ==> Took(trace[j], steps[j], trace[j + 1])
      invariant forall j :: 0 <= j <= i ==> Sound(trace[j])
    {
      Perform(state, steps[i], memory);
      trace := trace + [Snap(state)];
      ValidIsSound(state);
    }
  }
}
