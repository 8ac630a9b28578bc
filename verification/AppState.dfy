/** What the app host keeps across restarts, its encoding, and what restoring any bytes gives. */
module AppState {
  import opened Bits
  import opened LittleEndian

  /** A task's fixed text buffer, how much of it counts, and whether the task is done. */
  datatype Task = Task(text: seq<Byte>, length: nat, done: bool)

  /** A text in a fixed buffer. */
  datatype Label = Label(buffer: seq<Byte>, length: nat)

  datatype Reading = Reading(temperature: int, apparent: int, humidity: Byte, wind: nat, code: Byte, isDay: bool,
                             ready: bool)

  datatype Forecast = Forecast(fahrenheit: bool, count: nat, selected: nat, highs: seq<int>, lows: seq<int>,
                               codes: seq<Byte>, precipitation: seq<Byte>)

  datatype Tools = Tools(installed: nat, active: nat, palette: nat, counter: nat, pixels: nat)

  datatype Settings = Settings(countdown: nat, focus: nat, converter: nat, textMode: nat, clock24: bool,
                               taskCount: nat, taskSelected: nat)

  datatype Apps = Apps(tools: Tools, settings: Settings, tasks: seq<Task>, city: Label, location: Label,
                       reading: Reading, latitude: Label, longitude: Label, forecast: Forecast)

  // The installed packages are the bits of a 32-bit word.

  predicate Bit(v: nat, i: nat)
  {
    if i == 0 then v % 2 == 1 else Bit(v / 2, i - 1)
  }

  function SetBit(v: nat, i: nat): nat
  {
    if i == 0 then v - v % 2 + 1 else 2 * SetBit(v / 2, i - 1) + v % 2
  }

  function ClearBit(v: nat, i: nat): nat
  {
    if i == 0 then v - v % 2 else 2 * ClearBit(v / 2, i - 1) + v % 2
  }

  lemma {:induction false} BitOfSet(v: nat, i: nat, j: nat)
    ensures Bit(SetBit(v, i), j) <==> i == j || Bit(v, j)
  {
    if i > 0 && j > 0 {
      BitOfSet(v / 2, i - 1, j - 1);
    }
  }

  lemma {:induction false} BitOfClear(v: nat, i: nat, j: nat)
    ensures Bit(ClearBit(v, i), j) <==> i != j && Bit(v, j)
  {
    if i > 0 && j > 0 {
      BitOfClear(v / 2, i - 1, j - 1);
    }
  }

  lemma {:induction false} SetBitIsBounded(v: nat, i: nat, n: nat)
    requires i < n && v < Pow2(n)
    ensures SetBit(v, i) < Pow2(n) && ClearBit(v, i) <= v
  {
    if i > 0 {
      SetBitIsBounded(v / 2, i - 1, n - 1);
    }
  }

  /** A word with a package in it is not zero, and a word that is not zero has a package in it. */
  lemma {:induction false} SomeBit(v: nat, n: nat) returns (i: nat)
    requires 0 < v < Pow2(n)
    ensures i < n && Bit(v, i)
  {
    if v % 2 == 1 {
      i := 0;
    } else {
      i := SomeBit(v / 2, n - 1);
      i := i + 1;
    }
  }

  lemma {:induction false} NoBitsInZero(i: nat)
    ensures !Bit(0, i)
  {
    if i > 0 {
      NoBitsInZero(i - 1);
    }
  }

  /** The first installed package, or 0. */
  function FirstInstalled(v: nat, from: nat): (r: nat)
    requires from <= 32
    ensures r < 32
    ensures (forall i :: from <= i < 32 ==> !Bit(v, i)) ==> r == 0
    ensures (exists i :: from <= i < 32 && Bit(v, i)) ==>
      from <= r && Bit(v, r) && forall i :: from <= i < r ==> !Bit(v, i)
    decreases 32 - from
  {
    if from == 32 then 0 else if Bit(v, from) then from else FirstInstalled(v, from + 1)
  }

  // The host invariant.

  predicate Signed(v: int)
  {
    -0x8000 <= v < 0x8000
  }

  predicate ValidTools(t: Tools)
  {
    && t.installed < 0x1_0000_0000 && t.active < 32 && t.palette < 6
    && t.counter < 0x1_0000_0000 && t.pixels < 0x1_0000_0000_0000_0000
    && (if t.installed == 0 then t.active == 0 else Bit(t.installed, t.active))
  }

  predicate ValidSettings(s: Settings)
  {
    && 1 <= s.countdown <= 86400 && 1 <= s.focus <= 180 && s.converter < 4 && s.textMode < 3
    && s.taskCount <= 6 && (if s.taskCount == 0 then s.taskSelected == 0 else s.taskSelected < s.taskCount)
  }

  predicate ValidTask(t: Task)
  {
    |t.text| == 28 && t.length <= 28
  }

  predicate ValidLabel(l: Label, capacity: nat)
  {
    |l.buffer| == capacity && l.length <= capacity
  }

  predicate ValidReading(r: Reading)
  {
    Signed(r.temperature) && Signed(r.apparent) && r.wind < 0x1_0000
  }

  predicate ValidForecast(f: Forecast)
  {
    && f.count <= 5 && (if f.count == 0 then f.selected == 0 else f.selected < f.count)
    && |f.highs| == 5 && |f.lows| == 5 && |f.codes| == 5 && |f.precipitation| == 5
    && (forall i :: 0 <= i < 5 ==> Signed(f.highs[i]) && Signed(f.lows[i]))
  }

  predicate Valid(a: Apps)
  {
    && ValidTools(a.tools) && ValidSettings(a.settings)
    && |a.tasks| == 6 && (forall i :: 0 <= i < 6 ==> ValidTask(a.tasks[i]))
    && ValidLabel(a.city, 40) && ValidLabel(a.location, 48) && ValidLabel(a.latitude, 20) && ValidLabel(a.longitude, 20)
    && ValidReading(a.reading) && ValidForecast(a.forecast)
  }

  // The state of a new host.

  function Zeros(n: nat): (r: seq<Byte>)
    ensures |r| == n && forall i :: 0 <= i < n ==> r[i] == 0
  {
    seq(n, _ => 0)
  }

  function EmptyTask(): Task
  {
    Task(Zeros(28), 0, false)
  }

  function EmptyLabel(capacity: nat): Label
  {
    Label(Zeros(capacity), 0)
  }

  function NoReading(): Reading
  {
    Reading(0, 0, 0, 0, 0, true, false)
  }

  function NoForecast(): Forecast
  {
    Forecast(false, 0, 0, [0, 0, 0, 0, 0], [0, 0, 0, 0, 0], Zeros(5), Zeros(5))
  }

  function NoTasks(): seq<Task>
  {
    seq(6, _ => EmptyTask())
  }

  function Fresh(): (r: Apps)
    ensures Valid(r)
  {
    Apps(Tools(0, 0, 0, 0, 0), Settings(300, 25, 0, 0, true, 0, 0), NoTasks(), EmptyLabel(40), EmptyLabel(48),
         NoReading(), EmptyLabel(20), EmptyLabel(20), NoForecast())
  }

  // The encoding.

  const AYO1: seq<Byte> := [0x41, 0x59, 0x4F, 0x31]
  const AYO2: seq<Byte> := [0x41, 0x59, 0x4F, 0x32]
  const AYO3: seq<Byte> := [0x41, 0x59, 0x4F, 0x33]

  function Flag(b: bool): Byte
  {
    if b then 1 else 0
  }

  function ToolBytes(t: Tools): (r: seq<Byte>)
    requires ValidTools(t)
    ensures |r| == 18
  {
    Le32(t.installed) + ([t.active, t.palette] + (Le32(t.counter) + Le64(t.pixels)))
  }

  function SettingBytes(s: Settings): (r: seq<Byte>)
    requires ValidSettings(s)
    ensures |r| == 11
  {
    Le32(s.countdown) + (Le16(s.focus) + [s.converter, s.textMode, Flag(s.clock24), s.taskCount, s.taskSelected])
  }

  function TaskBytes(t: Task): (r: seq<Byte>)
    requires ValidTask(t)
    ensures |r| == 30
  {
    [t.length, Flag(t.done)] + t.text
  }

  function TaskListBytes(tasks: seq<Task>): (r: seq<Byte>)
    requires forall i :: 0 <= i < |tasks| ==> ValidTask(tasks[i])
    ensures |r| == 30 * |tasks|
  {
    if tasks == [] then [] else TaskListBytes(tasks[..|tasks| - 1]) + TaskBytes(tasks[|tasks| - 1])
  }

  function LabelBytes(l: Label, capacity: nat): (r: seq<Byte>)
    requires capacity < 256 && ValidLabel(l, capacity)
    ensures |r| == capacity + 1
  {
    [l.length] + l.buffer
  }

  function ReadingBytes(r: Reading): (s: seq<Byte>)
    requires ValidReading(r)
    ensures |s| == 10
  {
    Le16(Unsigned16(r.temperature)) + (Le16(Unsigned16(r.apparent))
      + ([r.humidity] + (Le16(r.wind) + [r.code, Flag(r.isDay), Flag(r.ready)])))
  }

  function SignedBytes(values: seq<int>): (r: seq<Byte>)
    requires forall i :: 0 <= i < |values| ==> Signed(values[i])
    ensures |r| == 2 * |values|
  {
    if values == [] then []
    else
      assert Signed(values[|values| - 1]);
      SignedBytes(values[..|values| - 1]) + Le16(Unsigned16(values[|values| - 1]))
  }

  function ForecastBytes(f: Forecast): (r: seq<Byte>)
    requires ValidForecast(f)
    ensures |r| == 33
  {
    [Flag(f.fahrenheit), f.count, f.selected]
      + (SignedBytes(f.highs) + (SignedBytes(f.lows) + (f.codes + f.precipitation)))
  }

  function Encoding(a: Apps): (r: seq<Byte>)
    requires Valid(a)
    ensures |r| == 388
  {
    AYO3 + (ToolBytes(a.tools) + (SettingBytes(a.settings) + (TaskListBytes(a.tasks) + (LabelBytes(a.city, 40)
      + (LabelBytes(a.location, 48) + (ReadingBytes(a.reading) + (LabelBytes(a.latitude, 20)
      + (LabelBytes(a.longitude, 20) + ForecastBytes(a.forecast)))))))))
  }

  // What restoring a byte string gives.

  function Min(a: nat, b: nat): nat
  {
    if a < b then a else b
  }

  function Clamp(v: nat, low: nat, high: nat): (r: nat)
    requires low <= high
    ensures low <= r <= high
  {
    if v < low then low else if v > high then high else v
  }

  /** The largest index into a list of the given length that is not above the wanted one, or 0. */
  function Selection(wanted: nat, count: nat): (r: nat)
    ensures if count == 0 then r == 0 else r < count
  {
    Min(wanted, if count == 0 then 0 else count - 1)
  }

  function RestoredTools(bytes: seq<Byte>): Tools
    requires |bytes| >= 22
  {
    var installed := U32At(bytes, 4);
    var active := Min(bytes[8], 31);
    Tools(installed, if Bit(installed, active) then active else FirstInstalled(installed, 0),
          bytes[9] % 6, U32At(bytes, 10), U64At(bytes, 14))
  }

  function RestoredSettings(bytes: seq<Byte>): (r: Settings)
    requires |bytes| >= 33
    ensures ValidSettings(r)
  {
    var count := Min(bytes[31], 6);
    Settings(Clamp(U32At(bytes, 22), 1, 86400), Clamp(U16At(bytes, 26), 1, 180), bytes[28] % 4, bytes[29] % 3,
             bytes[30] != 0, count, Selection(bytes[32], count))
  }

  /** How many tasks there are bytes for. */
  function TasksPresent(length: nat): (r: nat)
    requires length >= 33
    ensures r <= 6 && 33 + 30 * r <= length && (r < 6 ==> length < 33 + 30 * (r + 1))
  {
    Min(6, (length - 33) / 30)
  }

  function RestoredTask(bytes: seq<Byte>, offset: nat): Task
    requires offset + 30 <= |bytes|
  {
    Task(bytes[offset + 2..offset + 30], Min(bytes[offset], 28), bytes[offset + 1] != 0)
  }

  function RestoredTasks(bytes: seq<Byte>, present: nat): (r: seq<Task>)
    requires present <= 6 && 33 + 30 * present <= |bytes|
    ensures |r| == 6 && forall i :: 0 <= i < 6 ==> ValidTask(r[i])
  {
    seq(6, i requires 0 <= i < 6 => if i < present then RestoredTask(bytes, 33 + 30 * i) else EmptyTask())
  }

  /** A label whose bytes may be cut short, and where the next field then starts. */
  function RestoredLabel(bytes: seq<Byte>, offset: nat, capacity: nat): (r: Label)
    ensures ValidLabel(r, capacity)
  {
    if offset >= |bytes| then EmptyLabel(capacity)
    else
      var length := Min(Min(bytes[offset], capacity), |bytes| - offset - 1);
      Label(bytes[offset + 1..offset + 1 + length] + Zeros(capacity - length), length)
  }

  function LabelEnd(length: nat, offset: nat, capacity: nat): (r: nat)
    ensures offset <= length ==> offset <= r <= length
  {
    if offset >= length then offset else offset + 1 + Min(capacity, length - (offset + 1))
  }

  function RestoredReading(bytes: seq<Byte>, offset: nat): (r: Reading)
    ensures ValidReading(r)
  {
    if offset + 10 > |bytes| then NoReading()
    else Reading(I16At(bytes, offset), I16At(bytes, offset + 2), bytes[offset + 4], U16At(bytes, offset + 5),
                 bytes[offset + 7], bytes[offset + 8] != 0, bytes[offset + 9] != 0)
  }

  function RestoredForecast(bytes: seq<Byte>, offset: nat): (r: Forecast)
    ensures ValidForecast(r)
  {
    if offset + 33 > |bytes| then NoForecast()
    else
      var count := Min(bytes[offset + 1], 5);
      Forecast(bytes[offset] != 0, count, Selection(bytes[offset + 2], count),
               seq(5, i requires 0 <= i < 5 => I16At(bytes, offset + 3 + 2 * i)),
               seq(5, i requires 0 <= i < 5 => I16At(bytes, offset + 13 + 2 * i)),
               bytes[offset + 23..offset + 28], bytes[offset + 28..offset + 33])
  }

  /** The coordinates and the forecast, which only the third version has. */
  function RestoredPlace(a: Apps, bytes: seq<Byte>, offset: nat): Apps
  {
    if offset + 2 > |bytes| then a
    else
      var o := LabelEnd(|bytes|, offset, 20);
      a.(latitude := RestoredLabel(bytes, offset, 20), longitude := RestoredLabel(bytes, o, 20),
         forecast := RestoredForecast(bytes, LabelEnd(|bytes|, o, 20)))
  }

  function RestoredSky(a: Apps, bytes: seq<Byte>, offset: nat): Apps
  {
    var o := LabelEnd(|bytes|, offset, 40);
    var p := LabelEnd(|bytes|, o, 48);
    a.(city := RestoredLabel(bytes, offset, 40), location := RestoredLabel(bytes, o, 48),
       reading := RestoredReading(bytes, p))
  }

  function SkyEnd(length: nat, offset: nat): nat
  {
    var p := LabelEnd(length, LabelEnd(length, offset, 40), 48);
    if p + 10 <= length then p + 10 else p
  }

  function RestoredWeather(a: Apps, bytes: seq<Byte>, offset: nat): Apps
    requires |bytes| >= 4
  {
    var b := RestoredSky(a, bytes, offset);
    if bytes[..4] == AYO3 then RestoredPlace(b, bytes, SkyEnd(|bytes|, offset)) else b
  }

  /** What the second and the third version add. */
  function RestoredLater(a: Apps, bytes: seq<Byte>): Apps
    requires |bytes| >= 33
  {
    var present := TasksPresent(|bytes|);
    RestoredWeather(a.(settings := RestoredSettings(bytes), tasks := RestoredTasks(bytes, present)), bytes,
                    33 + 30 * present)
  }

  function Restored(bytes: seq<Byte>): Apps
  {
    if |bytes| < 22 || (bytes[..4] != AYO1 && bytes[..4] != AYO2 && bytes[..4] != AYO3) then Fresh()
    else
      var a := Fresh().(tools := RestoredTools(bytes));
      if bytes[..4] == AYO1 || |bytes| < 33 then a else RestoredLater(a, bytes)
  }

  // Every byte string gives a valid state.

  lemma RestoredToolsAreValid(bytes: seq<Byte>)
    requires |bytes| >= 22
    ensures ValidTools(RestoredTools(bytes))
  {
    var installed := U32At(bytes, 4);
    if installed == 0 {
      forall i | 0 <= i < 32 ensures !Bit(installed, i) {
        NoBitsInZero(i);
      }
    } else {
      Pow2At32();
      var i := SomeBit(installed, 32);
    }
  }

  lemma RestoredWeatherIsValid(a: Apps, bytes: seq<Byte>, offset: nat)
    requires Valid(a) && |bytes| >= 4
    ensures Valid(RestoredWeather(a, bytes, offset))
  {
  }

  lemma RestoredIsValid(bytes: seq<Byte>)
    ensures Valid(Restored(bytes))
  {
    if |bytes| >= 22 {
      RestoredToolsAreValid(bytes);
      if |bytes| >= 33 {
        var present := TasksPresent(|bytes|);
        var a := Fresh().(tools := RestoredTools(bytes), settings := RestoredSettings(bytes),
                          tasks := RestoredTasks(bytes, present));
        RestoredWeatherIsValid(a, bytes, 33 + 30 * present);
      }
    }
  }

  // Restoring an encoding gives the state back.

  /** A string stands at an offset. */
  predicate At(bytes: seq<Byte>, o: nat, s: seq<Byte>)
  {
    o + |s| <= |bytes| && bytes[o..o + |s|] == s
  }

  lemma AtParts(bytes: seq<Byte>, o: nat, a: seq<Byte>, b: seq<Byte>)
    requires At(bytes, o, a + b)
    ensures At(bytes, o, a) && At(bytes, o + |a|, b)
  {
    var whole := bytes[o..o + |a + b|];
    assert whole[..|a|] == a && whole[|a|..] == b;
    assert bytes[o..o + |a|] == whole[..|a|];
    assert bytes[o + |a|..o + |a| + |b|] == whole[|a|..];
  }

  lemma ByteAt(bytes: seq<Byte>, o: nat, s: seq<Byte>, i: nat)
    requires At(bytes, o, s) && i < |s|
    ensures bytes[o + i] == s[i]
  {
    assert bytes[o + i] == bytes[o..o + |s|][i];
  }

  /** A label keeps its text; what its buffer holds behind the text is not kept. */
  function KeptLabel(l: Label, capacity: nat): Label
    requires ValidLabel(l, capacity)
  {
    Label(l.buffer[..l.length] + Zeros(capacity - l.length), l.length)
  }

  function Kept(a: Apps): Apps
    requires Valid(a)
  {
    a.(city := KeptLabel(a.city, 40), location := KeptLabel(a.location, 48),
       latitude := KeptLabel(a.latitude, 20), longitude := KeptLabel(a.longitude, 20))
  }

  lemma ToolsReadBack(bytes: seq<Byte>, t: Tools)
    requires ValidTools(t) && |bytes| >= 22 && At(bytes, 4, ToolBytes(t))
    ensures RestoredTools(bytes) == t
  {
    AtParts(bytes, 4, Le32(t.installed), [t.active, t.palette] + (Le32(t.counter) + Le64(t.pixels)));
    AtParts(bytes, 8, [t.active, t.palette], Le32(t.counter) + Le64(t.pixels));
    AtParts(bytes, 10, Le32(t.counter), Le64(t.pixels));
    Read32(bytes, 4, t.installed);
    Read32(bytes, 10, t.counter);
    Read64(bytes, 14, t.pixels);
    ByteAt(bytes, 8, [t.active, t.palette], 0);
    ByteAt(bytes, 8, [t.active, t.palette], 1);
    ActiveIsKept(t);
  }

  lemma ActiveIsKept(t: Tools)
    requires ValidTools(t)
    ensures t.active == if Bit(t.installed, t.active) then t.active else FirstInstalled(t.installed, 0)
  {
    if t.installed == 0 {
      forall i | 0 <= i < 32 ensures !Bit(0, i) {
        NoBitsInZero(i);
      }
    }
  }

  lemma SettingsReadBack(bytes: seq<Byte>, s: Settings)
    requires ValidSettings(s) && |bytes| >= 33 && At(bytes, 22, SettingBytes(s))
    ensures RestoredSettings(bytes) == s
  {
    var rest := [s.converter, s.textMode, Flag(s.clock24), s.taskCount, s.taskSelected];
    AtParts(bytes, 22, Le32(s.countdown), Le16(s.focus) + rest);
    AtParts(bytes, 26, Le16(s.focus), rest);
    Read32(bytes, 22, s.countdown);
    Read16(bytes, 26, s.focus);
    forall i | 0 <= i < 5 ensures bytes[28 + i] == rest[i] {
      ByteAt(bytes, 28, rest, i);
    }
    assert bytes[28 + 0] == s.converter && bytes[28 + 1] == s.textMode && bytes[28 + 2] == Flag(s.clock24);
    assert bytes[28 + 3] == s.taskCount && bytes[28 + 4] == s.taskSelected;
  }

  lemma TaskReadsBack(bytes: seq<Byte>, o: nat, t: Task)
    requires ValidTask(t) && At(bytes, o, TaskBytes(t))
    ensures RestoredTask(bytes, o) == t
  {
    AtParts(bytes, o, [t.length, Flag(t.done)], t.text);
    ByteAt(bytes, o, [t.length, Flag(t.done)], 0);
    ByteAt(bytes, o, [t.length, Flag(t.done)], 1);
  }

  lemma {:induction false} TasksReadBack(bytes: seq<Byte>, tasks: seq<Task>, i: nat)
    requires i < |tasks| && (forall j :: 0 <= j < |tasks| ==> ValidTask(tasks[j]))
    requires At(bytes, 33, TaskListBytes(tasks))
    ensures 33 + 30 * i + 30 <= |bytes| && RestoredTask(bytes, 33 + 30 * i) == tasks[i]
  {
    var n := |tasks| - 1;
    AtParts(bytes, 33, TaskListBytes(tasks[..n]), TaskBytes(tasks[n]));
    if i < n {
      TasksReadBack(bytes, tasks[..n], i);
    } else {
      TaskReadsBack(bytes, 33 + 30 * n, tasks[n]);
    }
  }

  lemma LabelReadsBack(bytes: seq<Byte>, o: nat, l: Label, capacity: nat)
    requires capacity < 256 && ValidLabel(l, capacity) && At(bytes, o, LabelBytes(l, capacity))
    ensures RestoredLabel(bytes, o, capacity) == KeptLabel(l, capacity)
    ensures LabelEnd(|bytes|, o, capacity) == o + 1 + capacity
  {
    AtParts(bytes, o, [l.length], l.buffer);
    ByteAt(bytes, o, [l.length], 0);
    assert bytes[o + 1..o + 1 + l.length] == bytes[o + 1..o + 1 + capacity][..l.length];
  }

  lemma SignedReadsBack(bytes: seq<Byte>, o: nat, v: int)
    requires Signed(v) && At(bytes, o, Le16(Unsigned16(v)))
    ensures I16At(bytes, o) == v
  {
    Read16(bytes, o, Unsigned16(v));
  }

  lemma ReadingReadsBack(bytes: seq<Byte>, o: nat, r: Reading)
    requires ValidReading(r) && At(bytes, o, ReadingBytes(r))
    ensures RestoredReading(bytes, o) == r
  {
    var flags := [r.code, Flag(r.isDay), Flag(r.ready)];
    var apparent := Le16(Unsigned16(r.apparent));
    AtParts(bytes, o, Le16(Unsigned16(r.temperature)), apparent + ([r.humidity] + (Le16(r.wind) + flags)));
    AtParts(bytes, o + 2, apparent, [r.humidity] + (Le16(r.wind) + flags));
    AtParts(bytes, o + 4, [r.humidity], Le16(r.wind) + flags);
    AtParts(bytes, o + 5, Le16(r.wind), flags);
    SignedReadsBack(bytes, o, r.temperature);
    SignedReadsBack(bytes, o + 2, r.apparent);
    ByteAt(bytes, o + 4, [r.humidity], 0);
    Read16(bytes, o + 5, r.wind);
    ByteAt(bytes, o + 7, flags, 0);
    ByteAt(bytes, o + 7, flags, 1);
    ByteAt(bytes, o + 7, flags, 2);
  }

  lemma {:induction false} SignedListReadsBack(bytes: seq<Byte>, o: nat, values: seq<int>, i: nat)
    requires i < |values| && (forall j :: 0 <= j < |values| ==> Signed(values[j])) && At(bytes, o, SignedBytes(values))
    ensures o + 2 * i + 2 <= |bytes| && I16At(bytes, o + 2 * i) == values[i]
  {
    var n := |values| - 1;
    assert Signed(values[n]);
    AtParts(bytes, o, SignedBytes(values[..n]), Le16(Unsigned16(values[n])));
    if i < n {
      SignedListReadsBack(bytes, o, values[..n], i);
    } else {
      SignedReadsBack(bytes, o + 2 * n, values[n]);
    }
  }

  lemma ForecastReadsBack(bytes: seq<Byte>, o: nat, f: Forecast)
    requires ValidForecast(f) && At(bytes, o, ForecastBytes(f))
    ensures RestoredForecast(bytes, o) == f
  {
    var head := [Flag(f.fahrenheit), f.count, f.selected];
    var rest := f.codes + f.precipitation;
    AtParts(bytes, o, head, SignedBytes(f.highs) + (SignedBytes(f.lows) + rest));
    AtParts(bytes, o + 3, SignedBytes(f.highs), SignedBytes(f.lows) + rest);
    AtParts(bytes, o + 13, SignedBytes(f.lows), rest);
    AtParts(bytes, o + 23, f.codes, f.precipitation);
    ForecastHead(bytes, o, f);
    FiveReadBack(bytes, o + 3, f.highs);
    FiveReadBack(bytes, o + 13, f.lows);
  }

  lemma ForecastHead(bytes: seq<Byte>, o: nat, f: Forecast)
    requires ValidForecast(f) && At(bytes, o, [Flag(f.fahrenheit), f.count, f.selected])
    ensures (bytes[o] != 0) == f.fahrenheit && Min(bytes[o + 1], 5) == f.count
    ensures Selection(bytes[o + 2], f.count) == f.selected
  {
    var head := [Flag(f.fahrenheit), f.count, f.selected];
    ByteAt(bytes, o, head, 0);
    ByteAt(bytes, o, head, 1);
    ByteAt(bytes, o, head, 2);
  }

  lemma FiveReadBack(bytes: seq<Byte>, o: nat, values: seq<int>)
    requires |values| == 5 && (forall j :: 0 <= j < 5 ==> Signed(values[j])) && At(bytes, o, SignedBytes(values))
    ensures seq(5, i requires 0 <= i < 5 => I16At(bytes, o + 2 * i)) == values
  {
    forall i | 0 <= i < 5 ensures I16At(bytes, o + 2 * i) == values[i] {
      SignedListReadsBack(bytes, o, values, i);
    }
  }

  /** Where the sections of an encoding stand. */
  lemma Sections(bytes: seq<Byte>, a: Apps)
    requires Valid(a) && At(bytes, 0, Encoding(a))
    ensures At(bytes, 0, AYO3) && At(bytes, 4, ToolBytes(a.tools)) && At(bytes, 22, SettingBytes(a.settings))
    ensures At(bytes, 33, TaskListBytes(a.tasks)) && At(bytes, 213, LabelBytes(a.city, 40))
    ensures At(bytes, 254, LabelBytes(a.location, 48)) && At(bytes, 303, ReadingBytes(a.reading))
    ensures At(bytes, 313, LabelBytes(a.latitude, 20)) && At(bytes, 334, LabelBytes(a.longitude, 20))
    ensures At(bytes, 355, ForecastBytes(a.forecast))
  {
    var i := ForecastBytes(a.forecast);
    var h := LabelBytes(a.longitude, 20) + i;
    var g := LabelBytes(a.latitude, 20) + h;
    var f := ReadingBytes(a.reading) + g;
    var e := LabelBytes(a.location, 48) + f;
    var d := LabelBytes(a.city, 40) + e;
    var c := TaskListBytes(a.tasks) + d;
    var b := SettingBytes(a.settings) + c;
    AtParts(bytes, 0, AYO3, ToolBytes(a.tools) + b);
    AtParts(bytes, 4, ToolBytes(a.tools), b);
    AtParts(bytes, 22, SettingBytes(a.settings), c);
    AtParts(bytes, 33, TaskListBytes(a.tasks), d);
    AtParts(bytes, 213, LabelBytes(a.city, 40), e);
    AtParts(bytes, 254, LabelBytes(a.location, 48), f);
    AtParts(bytes, 303, ReadingBytes(a.reading), g);
    AtParts(bytes, 313, LabelBytes(a.latitude, 20), h);
    AtParts(bytes, 334, LabelBytes(a.longitude, 20), i);
  }

  /** The sections that the second version has too. */
  predicate Front(bytes: seq<Byte>, a: Apps)
    requires Valid(a)
  {
    && At(bytes, 4, ToolBytes(a.tools)) && At(bytes, 22, SettingBytes(a.settings))
    && At(bytes, 33, TaskListBytes(a.tasks))
    && At(bytes, 213, LabelBytes(a.city, 40)) && At(bytes, 254, LabelBytes(a.location, 48))
    && At(bytes, 303, ReadingBytes(a.reading))
  }

  lemma AllTasksReadBack(bytes: seq<Byte>, tasks: seq<Task>)
    requires |tasks| == 6 && (forall i :: 0 <= i < 6 ==> ValidTask(tasks[i])) && At(bytes, 33, TaskListBytes(tasks))
    ensures TasksPresent(|bytes|) == 6 && RestoredTasks(bytes, 6) == tasks
  {
    forall i | 0 <= i < 6 ensures RestoredTask(bytes, 33 + 30 * i) == tasks[i] {
      TasksReadBack(bytes, tasks, i);
    }
  }

  lemma SkyReadsBack(bytes: seq<Byte>, a: Apps, before: Apps)
    requires Valid(a) && Front(bytes, a)
    ensures SkyEnd(|bytes|, 213) == 313
    ensures RestoredSky(before, bytes, 213)
            == before.(city := KeptLabel(a.city, 40), location := KeptLabel(a.location, 48), reading := a.reading)
  {
    LabelReadsBack(bytes, 213, a.city, 40);
    LabelReadsBack(bytes, 254, a.location, 48);
    ReadingReadsBack(bytes, 303, a.reading);
  }

  lemma PlaceReadsBack(bytes: seq<Byte>, a: Apps, before: Apps)
    requires Valid(a) && At(bytes, 313, LabelBytes(a.latitude, 20)) && At(bytes, 334, LabelBytes(a.longitude, 20))
    requires At(bytes, 355, ForecastBytes(a.forecast))
    ensures RestoredPlace(before, bytes, 313)
            == before.(latitude := KeptLabel(a.latitude, 20), longitude := KeptLabel(a.longitude, 20),
                       forecast := a.forecast)
  {
    LabelReadsBack(bytes, 313, a.latitude, 20);
    LabelReadsBack(bytes, 334, a.longitude, 20);
    ForecastReadsBack(bytes, 355, a.forecast);
  }

  /** What the sections of the second version restore, on top of the tools. */
  lemma FrontReadsBack(bytes: seq<Byte>, a: Apps, before: Apps)
    requires Valid(a) && Front(bytes, a)
    ensures var sky := before.(settings := a.settings, tasks := a.tasks, city := KeptLabel(a.city, 40),
                               location := KeptLabel(a.location, 48), reading := a.reading);
      RestoredLater(before, bytes) == if bytes[..4] == AYO3 then RestoredPlace(sky, bytes, 313) else sky
  {
    SettingsReadBack(bytes, a.settings);
    AllTasksReadBack(bytes, a.tasks);
    SkyReadsBack(bytes, a, before.(settings := a.settings, tasks := a.tasks));
  }

  /** Restoring an encoding, with anything behind it, gives every durable field back. */
  lemma RestoreOfEncoding(bytes: seq<Byte>, a: Apps)
    requires Valid(a) && At(bytes, 0, Encoding(a))
    ensures Restored(bytes) == Kept(a)
  {
    Sections(bytes, a);
    ToolsReadBack(bytes, a.tools);
    var before := Fresh().(tools := a.tools);
    FrontReadsBack(bytes, a, before);
    PlaceReadsBack(bytes, a, before.(settings := a.settings, tasks := a.tasks, city := KeptLabel(a.city, 40),
                                     location := KeptLabel(a.location, 48), reading := a.reading));
  }

  /** The first version of the format stops behind the canvas: everything else is as in a new host. */
  lemma RestoreOfFirstVersion(bytes: seq<Byte>, t: Tools)
    requires ValidTools(t) && At(bytes, 0, AYO1) && At(bytes, 4, ToolBytes(t))
    ensures Restored(bytes) == Fresh().(tools := t)
  {
    ToolsReadBack(bytes, t);
  }

  /** The second version stops behind the weather reading. */
  lemma RestoreOfSecondVersion(bytes: seq<Byte>, a: Apps)
    requires Valid(a) && At(bytes, 0, AYO2) && At(bytes, 4, Encoding(a)[4..313])
    ensures Restored(bytes)
            == Kept(a).(latitude := EmptyLabel(20), longitude := EmptyLabel(20), forecast := NoForecast())
  {
    MovedFront(bytes, a);
    ToolsReadBack(bytes, a.tools);
    FrontReadsBack(bytes, a, Fresh().(tools := a.tools));
  }

  lemma MovedFront(bytes: seq<Byte>, a: Apps)
    requires Valid(a) && At(bytes, 4, Encoding(a)[4..313])
    ensures Front(bytes, a)
  {
    var whole := Encoding(a);
    assert At(whole, 0, whole);
    Sections(whole, a);
    Moved(bytes, whole, 4, ToolBytes(a.tools));
    Moved(bytes, whole, 22, SettingBytes(a.settings));
    Moved(bytes, whole, 33, TaskListBytes(a.tasks));
    Moved(bytes, whole, 213, LabelBytes(a.city, 40));
    Moved(bytes, whole, 254, LabelBytes(a.location, 48));
    Moved(bytes, whole, 303, ReadingBytes(a.reading));
  }

  lemma Moved(bytes: seq<Byte>, whole: seq<Byte>, o: nat, s: seq<Byte>)
    requires |whole| == 388 && At(bytes, 4, whole[4..313]) && At(whole, o, s) && 4 <= o && o + |s| <= 313
    ensures At(bytes, o, s)
  {
    forall i | 0 <= i < |s| ensures bytes[o + i] == s[i] {
      ByteAt(bytes, 4, whole[4..313], o + i - 4);
      ByteAt(whole, o, s, i);
    }
  }
}
