/** The task list as the user sees it. */
module TaskBoard {
  import opened Bits
  import opened Options

  datatype Item = Item(text: seq<Byte>, done: bool)

  /** The tasks, which one is selected, and what has been typed. */
  datatype Board = Board(items: seq<Item>, selected: nat, input: seq<Byte>)

  const UP := 0x80
  const DOWN := 0x81
  const ENTER := 10
  const ERASE := 8
  const SPACE := 32

  predicate Valid(b: Board)
  {
    && |b.items| <= 6 && (if b.items == [] then b.selected == 0 else b.selected < |b.items|)
    && (forall i :: 0 <= i < |b.items| ==> |b.items[i].text| <= 28)
  }

  function Clip(text: seq<Byte>): seq<Byte>
  {
    if |text| < 28 then text else text[..28]
  }

  predicate Graphic(key: Byte)
  {
    33 <= key <= 126
  }

  function Added(b: Board): Board
  {
    Board(b.items + [Item(Clip(b.input), false)], |b.items|, [])
  }

  function Marked(b: Board): Board
    requires b.selected < |b.items|
  {
    b.(items := b.items[b.selected := b.items[b.selected].(done := !b.items[b.selected].done)])
  }

  function Deleted(b: Board): Board
    requires b.selected < |b.items|
  {
    var rest := b.items[..b.selected] + b.items[b.selected + 1..];
    b.(items := rest, selected := if b.selected < |rest| || rest == [] then b.selected else b.selected - 1)
  }

  /** What a key does; nothing is returned for a key that is not handled. */
  function Press(b: Board, key: Byte): (r: Option<Board>)
    requires Valid(b)
    ensures r.Some? ==> Valid(r.value)
  {
    if key == UP && b.items != [] then Some(b.(selected := if b.selected == 0 then 0 else b.selected - 1))
    else if key == DOWN && b.items != [] then
      Some(b.(selected := if b.selected + 1 < |b.items| then b.selected + 1 else b.selected))
    else if key == ENTER && b.input != [] && |b.items| < 6 then
      Some(Added(b))
    else if (key == ENTER || key == SPACE) && b.input == [] && b.items != [] then
      Some(Marked(b))
    else if key == ERASE && b.input != [] then Some(b.(input := b.input[..|b.input| - 1]))
    else if key == ERASE && b.items != [] then Some(Deleted(b))
    else if (Graphic(key) || key == SPACE) && |b.input| < 28 then Some(b.(input := b.input + [key]))
    else None
  }

  function PressAll(b: Board, keys: seq<Byte>): (r: Board)
    requires Valid(b)
    ensures Valid(r)
  {
    if keys == [] then b
    else
      var before := PressAll(b, keys[..|keys| - 1]);
      var after := Press(before, keys[|keys| - 1]);
      if after.Some? then after.value else before
  }

  /** Erasing right after adding a task takes it back. */
  lemma AddThenErase(b: Board)
    requires Valid(b) && b.input != [] && |b.items| < 6
    ensures PressAll(b, [ENTER, ERASE]).items == b.items
  {
    var added := Press(b, ENTER).value;
    PressTwo(b, ENTER, ERASE);
    assert added.items[..|b.items|] + added.items[|b.items| + 1..] == b.items;
  }

  lemma MarkTwice(b: Board)
    requires Valid(b) && b.input == [] && b.items != []
    ensures PressAll(b, [ENTER, ENTER]) == b
  {
    PressTwo(b, ENTER, ENTER);
  }

  lemma PressTwo(b: Board, k: Byte, l: Byte)
    requires Valid(b) && Press(b, k).Some? && Press(Press(b, k).value, l).Some?
    ensures PressAll(b, [k, l]) == Press(Press(b, k).value, l).value
  {
    assert [k, l][..1] == [k] && [k][..0] == [];
    assert PressAll(b, [k]) == Press(b, k).value;
  }

  /** Typing a text that fits, and that does not start with a blank when there are tasks to mark, puts it in the
      input. */
  lemma {:induction false} Typed(b: Board, text: seq<Byte>)
    requires Valid(b) && b.input == [] && |text| <= 28
    requires forall i :: 0 <= i < |text| ==> Graphic(text[i]) || text[i] == SPACE
    requires text != [] && b.items != [] ==> text[0] != SPACE
    ensures PressAll(b, text) == b.(input := text)
  {
    if text != [] {
      var n := |text| - 1;
      Typed(b, text[..n]);
      TypeOne(b, text[..n], text[n]);
      assert text == text[..n] + [text[n]];
    }
  }

  lemma TypeOne(b: Board, front: seq<Byte>, key: Byte)
    requires Valid(b) && |front| < 28 && (Graphic(key) || key == SPACE) && Valid(b.(input := front))
    requires front == [] && b.items != [] ==> key != SPACE
    ensures Press(b.(input := front), key) == Some(b.(input := front + [key]))
  {
  }

  lemma EnterAdds(b: Board, text: seq<Byte>)
    requires Valid(b) && 0 < |text| <= 28 && |b.items| < 6 && Valid(b.(input := text))
    ensures Press(b.(input := text), ENTER) == Some(Board(b.items + [Item(text, false)], |b.items|, []))
  {
    assert |text| == 28 ==> text[..28] == text;
  }

  /** Typing a text and pressing Enter adds a task with that text. */
  lemma TypedTaskIsAdded(b: Board, text: seq<Byte>)
    requires Valid(b) && b.input == [] && 0 < |text| <= 28 && |b.items| < 6
    requires forall i :: 0 <= i < |text| ==> Graphic(text[i]) || text[i] == SPACE
    requires b.items != [] ==> text[0] != SPACE
    ensures PressAll(b, text + [ENTER]) == Board(b.items + [Item(text, false)], |b.items|, [])
  {
    Typed(b, text);
    assert (text + [ENTER])[..|text|] == text;
    EnterAdds(b, text);
  }
}

/** The app host: packages, tasks, saving and restoring. */
module AppHost {
  import opened AppState
  import opened Bits
  import opened LittleEndian
  import opened Options
  import Board = TaskBoard

  function ItemOf(t: Task): Board.Item
    requires ValidTask(t)
  {
    Board.Item(t.text[..t.length], t.done)
  }

  function ItemsOf(tasks: seq<Task>): (r: seq<Board.Item>)
    requires forall i :: 0 <= i < |tasks| ==> ValidTask(tasks[i])
    ensures |r| == |tasks| && forall i :: 0 <= i < |r| ==> r[i] == ItemOf(tasks[i])
  {
    seq(|tasks|, i requires 0 <= i < |tasks| => ItemOf(tasks[i]))
  }

  class NativeApps {
    var selected: nat
    var installed: nat
    var active: nat
    var palette: nat
    var counter: nat
    var pixels: nat
    var countdown: nat
    var focus: nat
    var converter: nat
    var textMode: nat
    var clock24: bool
    var tasks: seq<Task>
    var taskCount: nat
    var taskSelected: nat
    var input: seq<Byte>
    var inputLength: nat
    var city: Label
    var location: Label
    var reading: Reading
    var latitude: Label
    var longitude: Label
    var forecast: Forecast

    function Tools(): Tools
      reads this
    {
      AppState.Tools(installed, active, palette, counter, pixels)
    }

    function Settings(): Settings
      reads this
    {
      AppState.Settings(countdown, focus, converter, textMode, clock24, taskCount, taskSelected)
    }

    /** What is saved. */
    function State(): Apps
      reads this
    {
      Apps(Tools(), Settings(), tasks, city, location, reading, latitude, longitude, forecast)
    }

    predicate Valid()
      reads this
    {
      AppState.Valid(State()) && |input| == 96 && inputLength <= 96
    }

    function TaskBoard(): Board.Board
      requires Valid()
      reads this
    {
      Board.Board(ItemsOf(tasks[..taskCount]), taskSelected, input[..inputLength])
    }

    constructor ()
      ensures Valid() && State() == Fresh() && TaskBoard() == Board.Board([], 0, [])
      ensures tasks == NoTasks() && reading == NoReading() && forecast == NoForecast()
    {
      selected, installed, active, palette, counter, pixels := 0, 0, 0, 0, 0, 0;
      countdown, focus, converter, textMode, clock24 := 300, 25, 0, 0, true;
      tasks, taskCount, taskSelected := NoTasks(), 0, 0;
      input, inputLength := Zeros(96), 0;
      city, location, latitude, longitude := EmptyLabel(40), EmptyLabel(48), EmptyLabel(20), EmptyLabel(20);
      reading, forecast := NoReading(), NoForecast();
    }

    /** Installing a package makes it the active one; the result says whether it is new. */
    method Install(index: nat) returns (changed: bool)
      requires Valid()
      modifies `installed, `selected, `active
      ensures Valid()
      ensures changed == (index < 32 && !Bit(old(installed), index))
      ensures index >= 32 ==> unchanged(this)
      ensures index < 32 ==>
        && installed == SetBit(old(installed), index) && active == index && selected == index
        && forall j :: 0 <= j < 32 ==> (Bit(installed, j) <==> j == index || Bit(old(installed), j))
    {
      if index >= 32 {
        return false;
      }
      changed := !Bit(installed, index);
      Added(installed, index);
      installed := SetBit(installed, index);
      selected := index;
      active := index;
    }

    /** Uninstalling the active package makes the first installed one active. */
    method Uninstall(index: nat) returns (changed: bool)
      requires Valid()
      modifies `installed, `active
      ensures Valid()
      ensures changed == (index < 32 && Bit(old(installed), index))
      ensures !changed ==> unchanged(this)
      ensures changed ==>
        && installed == ClearBit(old(installed), index)
        && (forall j :: 0 <= j < 32 ==> (Bit(installed, j) <==> j != index && Bit(old(installed), j)))
        && (old(active) != index ==> active == old(active))
        && (old(active) == index ==> active == FirstInstalled(installed, 0))
    {
      if index >= 32 || !Bit(installed, index) {
        return false;
      }
      NoBitsInZero(index);
      Remaining(installed, index);
      installed := ClearBit(installed, index);
      if active == index {
        active := FindInstalled(installed);
      }
      return true;
    }

    /** A key of the task app does to the board what it says, and touches nothing else that is saved. */
    method HandleTasksKey(key: Byte) returns (handled: bool)
      requires Valid()
      modifies `tasks, `taskCount, `taskSelected, `input, `inputLength
      ensures Valid()
      ensures handled == Board.Press(old(TaskBoard()), key).Some?
      ensures TaskBoard() == if handled then Board.Press(old(TaskBoard()), key).value else old(TaskBoard())
    {
      if key == Board.UP && taskCount != 0 {
        taskSelected := if taskSelected == 0 then 0 else taskSelected - 1;
      } else if key == Board.DOWN && taskCount != 0 {
        taskSelected := Min(taskSelected + 1, taskCount - 1);
      } else if key == Board.ENTER && inputLength != 0 && taskCount < 6 {
        AddTask();
      } else if (key == Board.ENTER || key == Board.SPACE) && inputLength == 0 && taskCount != 0 {
        MarkTask();
      } else if key == Board.ERASE && inputLength != 0 {
        inputLength := inputLength - 1;
      } else if key == Board.ERASE && taskCount != 0 {
        DeleteTask();
      } else if (Board.Graphic(key) || key == Board.SPACE) && inputLength < 28 {
        input := input[inputLength := key];
        inputLength := inputLength + 1;
      } else {
        return false;
      }
      return true;
    }

    method AddTask()
      requires Valid() && inputLength != 0 && taskCount < 6
      modifies `tasks, `taskCount, `taskSelected, `input, `inputLength
      ensures Valid()
      ensures TaskBoard() == Board.Added(old(TaskBoard())) && input == Zeros(96)
    {
      var task := TypedTask(input, inputLength, tasks[taskCount].text);
      TaskAdded(tasks, taskCount, task);
      tasks := tasks[taskCount := task];
      taskSelected := taskCount;
      taskCount := taskCount + 1;
      input := Zeros(96);
      inputLength := 0;
      assert input[..inputLength] == [];
    }

    method MarkTask()
      requires Valid() && inputLength == 0 && taskCount != 0
      modifies `tasks
      ensures Valid()
      ensures TaskBoard() == Board.Marked(old(TaskBoard()))
    {
      var task := tasks[taskSelected];
      ghost var before := tasks[..taskCount];
      tasks := tasks[taskSelected := task.(done := !task.done)];
      assert tasks[..taskCount] == before[taskSelected := task.(done := !task.done)];
    }

    method DeleteTask()
      requires Valid() && inputLength == 0 && taskCount != 0
      modifies `tasks, `taskCount, `taskSelected
      ensures Valid()
      ensures TaskBoard() == Board.Deleted(old(TaskBoard()))
    {
      var closed := CloseGap(tasks, taskSelected, taskCount);
      GapClosed(tasks, closed, taskSelected, taskCount);
      tasks := closed;
      taskCount := taskCount - 1;
      taskSelected := Selection(taskSelected, taskCount);
    }

    /** Writes the encoding of the state into a cleared buffer. */
    method EncodeState(out: array<Byte>) returns (length: nat)
      requires Valid() && out.Length == 448
      modifies out
      ensures length == 388 && out[..length] == Encoding(State()) && out[length..] == Zeros(60)
    {
      forall i | 0 <= i < 448 {
        out[i] := 0;
      }
      ghost var whole := Encoding(State());
      ghost var weather := LabelBytes(city, 40) + (LabelBytes(location, 48) + (ReadingBytes(reading) + PlaceBytes()));
      ghost var b := SettingBytes(Settings()) + (TaskListBytes(tasks) + weather);
      length := Append(out, 0, AYO3, ToolBytes(Tools()) + b, whole);
      length := Append(out, length, ToolBytes(Tools()), b, whole);
      length := Append(out, length, SettingBytes(Settings()), TaskListBytes(tasks) + weather, whole);
      length := AppendTasks(out, length, tasks, weather, whole);
      length := EncodeWeather(out, length, whole);
    }

    /** The coordinates and the forecast, which come last. */
    ghost function PlaceBytes(): seq<Byte>
      requires Valid()
      reads this
    {
      LabelBytes(latitude, 20) + (LabelBytes(longitude, 20) + ForecastBytes(forecast))
    }

    method EncodeWeather(out: array<Byte>, offset: nat, ghost whole: seq<Byte>) returns (next: nat)
      requires Valid() && offset + 175 <= out.Length
      requires out[..offset]
               + (LabelBytes(city, 40) + (LabelBytes(location, 48) + (ReadingBytes(reading) + PlaceBytes()))) == whole
      modifies out
      ensures next == offset + 175 && out[..next] == whole
      ensures forall i :: next <= i < out.Length ==> out[i] == old(out[i])
    {
      ghost var place := PlaceBytes();
      next := Append(out, offset, LabelBytes(city, 40), LabelBytes(location, 48) + (ReadingBytes(reading) + place),
                     whole);
      next := Append(out, next, LabelBytes(location, 48), ReadingBytes(reading) + place, whole);
      next := Append(out, next, ReadingBytes(reading), place, whole);
      next := Append(out, next, LabelBytes(latitude, 20), LabelBytes(longitude, 20) + ForecastBytes(forecast), whole);
      next := Append(out, next, LabelBytes(longitude, 20), ForecastBytes(forecast), whole);
      next := AppendForecast(out, next, forecast, whole);
    }

    // Restoring, section by section.

    method RestoreTools(bytes: seq<Byte>)
      requires |bytes| >= 22
      modifies `installed, `active, `palette, `counter, `pixels
      ensures Tools() == RestoredTools(bytes)
    {
      installed := U32At(bytes, 4);
      active := Min(bytes[8], 31);
      if !Bit(installed, active) {
        active := FindInstalled(installed);
      }
      palette := bytes[9] % 6;
      counter := U32At(bytes, 10);
      pixels := U64At(bytes, 14);
    }

    method RestoreSettings(bytes: seq<Byte>)
      requires |bytes| >= 33
      modifies `countdown, `focus, `converter, `textMode, `clock24, `taskCount, `taskSelected
      ensures Settings() == RestoredSettings(bytes)
    {
      countdown := Clamp(U32At(bytes, 22), 1, 86400);
      focus := Clamp(U16At(bytes, 26), 1, 180);
      converter := bytes[28] % 4;
      textMode := bytes[29] % 3;
      clock24 := bytes[30] != 0;
      taskCount := Min(bytes[31], 6);
      taskSelected := Selection(bytes[32], taskCount);
    }

    /** Reads the tasks there are bytes for and says where the next field starts. */
    method RestoreTasks(bytes: seq<Byte>) returns (offset: nat)
      requires |bytes| >= 33 && tasks == NoTasks()
      modifies `tasks
      ensures State() == old(State()).(tasks := RestoredTasks(bytes, TasksPresent(|bytes|)))
      ensures offset == 33 + 30 * TasksPresent(|bytes|)
    {
      offset := 33;
      ghost var present := TasksPresent(|bytes|);
      for index := 0 to 6
        invariant index <= present && offset == 33 + 30 * index && |tasks| == 6
        invariant forall i :: 0 <= i < 6 ==>
          tasks[i] == if i < index then RestoredTask(bytes, 33 + 30 * i) else EmptyTask()
      {
        if offset + 30 > |bytes| {
          break;
        }
        var length := Min(bytes[offset], 28);
        tasks := tasks[index := Task(bytes[offset + 2..offset + 30], length, bytes[offset + 1] != 0)];
        offset := offset + 30;
      }
    }

    method RestoreSky(bytes: seq<Byte>, start: nat) returns (offset: nat)
      requires start <= |bytes| && reading == NoReading()
      modifies `city, `location, `reading
      ensures State() == RestoredSky(old(State()), bytes, start) && offset == SkyEnd(|bytes|, start)
    {
      var name, place;
      name, offset := ReadLabel(bytes, start, 40);
      place, offset := ReadLabel(bytes, offset, 48);
      city, location := name, place;
      if offset + 10 <= |bytes| {
        reading := RestoredReading(bytes, offset);
        offset := offset + 10;
      }
    }

    method RestorePlace(bytes: seq<Byte>, start: nat)
      requires start + 2 <= |bytes| && forecast == NoForecast()
      modifies `latitude, `longitude, `forecast
      ensures State() == RestoredPlace(old(State()), bytes, start)
    {
      var north, east, offset;
      north, offset := ReadLabel(bytes, start, 20);
      east, offset := ReadLabel(bytes, offset, 20);
      latitude, longitude := north, east;
      if offset + 33 <= |bytes| {
        forecast := ReadForecast(bytes, offset);
      }
    }

    /** What the second and the third version add. */
    method RestoreLater(bytes: seq<Byte>)
      requires |bytes| >= 33 && tasks == NoTasks() && reading == NoReading() && forecast == NoForecast()
      modifies `countdown, `focus, `converter, `textMode, `clock24, `tasks, `taskCount, `taskSelected,
               `city, `location, `reading, `latitude, `longitude, `forecast
      ensures State() == RestoredLater(old(State()), bytes)
    {
      RestoreSettings(bytes);
      assert State() == old(State()).(settings := RestoredSettings(bytes));
      var offset := RestoreTasks(bytes);
      RestoreRest(bytes, offset);
    }

    method RestoreRest(bytes: seq<Byte>, start: nat)
      requires 4 <= |bytes| && start <= |bytes| && reading == NoReading() && forecast == NoForecast()
      modifies `city, `location, `reading, `latitude, `longitude, `forecast
      ensures State() == RestoredWeather(old(State()), bytes, start)
    {
      var offset := RestoreSky(bytes, start);
      if bytes[..4] == AYO3 && offset + 2 <= |bytes| {
        RestorePlace(bytes, offset);
      }
    }

    /** Restores into a new host. */
    method Restore(bytes: seq<Byte>)
      requires State() == Fresh()
      modifies `installed, `active, `palette, `counter, `pixels,
               `countdown, `focus, `converter, `textMode, `clock24, `tasks, `taskCount, `taskSelected,
               `city, `location, `reading, `latitude, `longitude, `forecast
      ensures State() == Restored(bytes)
    {
      if |bytes| < 22 || (bytes[..4] != AYO1 && bytes[..4] != AYO2 && bytes[..4] != AYO3) {
        return;
      }
      RestoreTools(bytes);
      assert State() == Fresh().(tools := RestoredTools(bytes));
      if (bytes[..4] == AYO2 || bytes[..4] == AYO3) && |bytes| >= 33 {
        RestoreLater(bytes);
      }
    }
  }

  method ReadLabel(bytes: seq<Byte>, start: nat, capacity: nat) returns (text: Label, offset: nat)
    requires start <= |bytes|
    ensures text == RestoredLabel(bytes, start, capacity) && offset == LabelEnd(|bytes|, start, capacity)
  {
    text, offset := EmptyLabel(capacity), start;
    if offset < |bytes| {
      var length := Min(Min(bytes[offset], capacity), |bytes| - offset - 1);
      offset := offset + 1;
      text := Label(bytes[offset..offset + length] + text.buffer[length..], length);
      assert text.buffer == bytes[offset..offset + length] + Zeros(capacity - length);
      offset := offset + Min(capacity, |bytes| - offset);
    }
  }

  method ReadForecast(bytes: seq<Byte>, offset: nat) returns (forecast: Forecast)
    requires offset + 33 <= |bytes|
    ensures forecast == RestoredForecast(bytes, offset)
  {
    var count := Min(bytes[offset + 1], 5);
    var highs := ReadSigned(bytes, offset + 3);
    var lows := ReadSigned(bytes, offset + 13);
    forecast := Forecast(bytes[offset] != 0, count, Selection(bytes[offset + 2], count), highs, lows,
                         bytes[offset + 23..offset + 28], bytes[offset + 28..offset + 33]);
  }

  method ReadSigned(bytes: seq<Byte>, start: nat) returns (values: seq<int>)
    requires start + 10 <= |bytes|
    ensures |values| == 5 && forall i :: 0 <= i < 5 ==> values[i] == I16At(bytes, start + 2 * i)
  {
    values := [];
    var offset := start;
    while |values| < 5
      invariant |values| <= 5 && offset == start + 2 * |values|
      invariant forall i :: 0 <= i < |values| ==> values[i] == I16At(bytes, start + 2 * i)
    {
      values := values + [I16At(bytes, offset)];
      offset := offset + 2;
    }
  }

  /** Restores a host from any bytes. */
  method RestoreState(bytes: seq<Byte>) returns (host: NativeApps)
    ensures fresh(host) && host.Valid() && host.State() == Restored(bytes) && host.inputLength == 0
  {
    host := new NativeApps();
    host.Restore(bytes);
    RestoredIsValid(bytes);
  }

  /** Saving and restoring gives every durable field back. */
  method SaveAndRestore(host: NativeApps) returns (again: NativeApps)
    requires host.Valid()
    ensures fresh(again) && again.Valid() && again.State() == Kept(host.State())
  {
    var out := new Byte[448];
    var length := host.EncodeState(out);
    ghost var bytes := out[..length];
    assert bytes[0..388] == bytes;
    RestoreOfEncoding(bytes, host.State());
    again := RestoreState(out[..length]);
  }

  // Runs.

  datatype Step = Install(index: nat) | Uninstall(index: nat) | Key(key: Byte)

  /** The installed packages after a run. */
  function Packages(v: nat, steps: seq<Step>): nat
  {
    if steps == [] then v
    else PackagesAfter(Packages(v, steps[..|steps| - 1]), steps[|steps| - 1])
  }

  function PackagesAfter(v: nat, step: Step): nat
  {
    match step
    case Install(index) => if index < 32 then SetBit(v, index) else v
    case Uninstall(index) => if index < 32 && Bit(v, index) then ClearBit(v, index) else v
    case Key(_) => v
  }

  function Keys(steps: seq<Step>): seq<Byte>
  {
    if steps == [] then []
    else
      var last := steps[|steps| - 1];
      Keys(steps[..|steps| - 1]) + (if last.Key? then [last.key] else [])
  }

  /** Any run from a new host leaves a valid host with the packages and the tasks the run makes, and saving and
      restoring it gives exactly the same state. */
  method RunThenSave(steps: seq<Step>) returns (host: NativeApps, again: NativeApps)
    ensures host.Valid() && host.installed == Packages(0, steps)
    ensures host.TaskBoard() == Board.PressAll(Board.Board([], 0, []), Keys(steps))
    ensures again.State() == host.State()
  {
    host := new NativeApps();
    for i := 0 to |steps|
      invariant fresh(host) && host.Valid() && host.installed == Packages(0, steps[..i])
      invariant host.TaskBoard() == Board.PressAll(Board.Board([], 0, []), Keys(steps[..i]))
      invariant Unnamed(host.State())
    {
      assert steps[..i + 1][..i] == steps[..i];
      NextKeys(steps, i);
      Perform(host, steps[i]);
    }
    assert steps[..|steps|] == steps;
    again := SaveAndRestore(host);
    UnnamedIsKept(host.State());
  }

  lemma NextKeys(steps: seq<Step>, i: nat)
    requires i < |steps|
    ensures var b, keys := Board.PressAll(Board.Board([], 0, []), Keys(steps[..i])), Keys(steps[..i + 1]);
      Board.PressAll(Board.Board([], 0, []), keys) ==
        if steps[i].Key? && Board.Press(b, steps[i].key).Some? then Board.Press(b, steps[i].key).value else b
  {
    assert steps[..i + 1][..i] == steps[..i];
    var keys := Keys(steps[..i]);
    if steps[i].Key? {
      assert Keys(steps[..i + 1]) == keys + [steps[i].key];
      assert (keys + [steps[i].key])[..|keys|] == keys;
    } else {
      assert Keys(steps[..i + 1]) == keys;
    }
  }

  method Perform(host: NativeApps, step: Step)
    requires host.Valid()
    modifies host
    ensures host.Valid() && (Unnamed(old(host.State())) ==> Unnamed(host.State()))
    ensures host.installed == PackagesAfter(old(host.installed), step)
    ensures host.TaskBoard() == if step.Key? && Board.Press(old(host.TaskBoard()), step.key).Some?
      then Board.Press(old(host.TaskBoard()), step.key).value else old(host.TaskBoard())
  {
    var changed;
    match step {
      case Install(index) => changed := host.Install(index);
      case Uninstall(index) => changed := host.Uninstall(index);
      case Key(key) => changed := host.HandleTasksKey(key);
    }
  }

  /** No weather has been asked for. */
  predicate Unnamed(a: Apps)
  {
    && a.city == EmptyLabel(40) && a.location == EmptyLabel(48)
    && a.latitude == EmptyLabel(20) && a.longitude == EmptyLabel(20)
  }

  lemma UnnamedIsKept(a: Apps)
    requires AppState.Valid(a) && Unnamed(a)
    ensures Kept(a) == a
  {
    assert KeptLabel(a.city, 40).buffer == a.city.buffer;
    assert KeptLabel(a.location, 48).buffer == a.location.buffer;
    assert KeptLabel(a.latitude, 20).buffer == a.latitude.buffer;
    assert KeptLabel(a.longitude, 20).buffer == a.longitude.buffer;
  }

  /** Writes a field; what is still to come is unchanged. */
  method Append(out: array<Byte>, offset: nat, field: seq<Byte>, ghost rest: seq<Byte>, ghost whole: seq<Byte>)
    returns (next: nat)
    requires offset + |field| <= out.Length && out[..offset] + (field + rest) == whole
    modifies out
    ensures next == offset + |field| && out[..next] + rest == whole
    ensures forall i :: next <= i < out.Length ==> out[i] == old(out[i])
    ensures out[..next] == old(out[..offset]) + field
  {
    forall i | 0 <= i < |field| {
      out[offset + i] := field[i];
    }
    next := offset + |field|;
    assert out[..next] == old(out[..offset]) + field;
    assert (old(out[..offset]) + field) + rest == old(out[..offset]) + (field + rest);
  }

  method AppendTasks(out: array<Byte>, offset: nat, tasks: seq<Task>, ghost rest: seq<Byte>, ghost whole: seq<Byte>)
    returns (next: nat)
    requires AllValid(tasks) && offset + 30 * |tasks| <= out.Length
    requires out[..offset] + (TaskListBytes(tasks) + rest) == whole
    modifies out
    ensures next == offset + 30 * |tasks| && out[..next] + rest == whole
    ensures forall i :: next <= i < out.Length ==> out[i] == old(out[i])
  {
    ghost var start := out[..offset];
    next := offset;
    for i := 0 to |tasks|
      invariant next == offset + 30 * i && out[..next] == start + TaskListBytes(tasks[..i])
      invariant forall i :: next <= i < out.Length ==> out[i] == old(out[i])
    {
      ghost var written := out[..next] + (TaskBytes(tasks[i]) + []);
      next := Append(out, next, TaskBytes(tasks[i]), [], written);
      assert tasks[..i + 1][..i] == tasks[..i];
    }
    assert tasks[..|tasks|] == tasks;
    assert (start + TaskListBytes(tasks)) + rest == start + (TaskListBytes(tasks) + rest);
  }

  method AppendSigned(out: array<Byte>, offset: nat, values: seq<int>, ghost rest: seq<Byte>, ghost whole: seq<Byte>)
    returns (next: nat)
    requires forall i :: 0 <= i < |values| ==> Signed(values[i])
    requires offset + 2 * |values| <= out.Length && out[..offset] + (SignedBytes(values) + rest) == whole
    modifies out
    ensures next == offset + 2 * |values| && out[..next] + rest == whole
    ensures forall i :: next <= i < out.Length ==> out[i] == old(out[i])
  {
    ghost var start := out[..offset];
    next := offset;
    for i := 0 to |values|
      invariant next == offset + 2 * i && out[..next] == start + SignedBytes(values[..i])
      invariant forall i :: next <= i < out.Length ==> out[i] == old(out[i])
    {
      assert Signed(values[i]);
      ghost var written := out[..next] + (Le16(Unsigned16(values[i])) + []);
      next := Append(out, next, Le16(Unsigned16(values[i])), [], written);
      assert values[..i + 1][..i] == values[..i];
    }
    assert values[..|values|] == values;
    assert (start + SignedBytes(values)) + rest == start + (SignedBytes(values) + rest);
  }

  method AppendForecast(out: array<Byte>, offset: nat, f: Forecast, ghost whole: seq<Byte>) returns (next: nat)
    requires ValidForecast(f) && offset + 33 <= out.Length && out[..offset] + ForecastBytes(f) == whole
    modifies out
    ensures next == offset + 33 && out[..next] == whole
    ensures forall i :: next <= i < out.Length ==> out[i] == old(out[i])
  {
    ghost var tail := f.codes + f.precipitation;
    next := Append(out, offset, [Flag(f.fahrenheit), f.count, f.selected],
                   SignedBytes(f.highs) + (SignedBytes(f.lows) + tail), whole);
    next := AppendSigned(out, next, f.highs, SignedBytes(f.lows) + tail, whole);
    next := AppendSigned(out, next, f.lows, tail, whole);
    next := Append(out, next, f.codes, f.precipitation, whole);
    assert f.precipitation + [] == f.precipitation;
    next := Append(out, next, f.precipitation, [], whole);
  }

  /** Moves the tasks behind a deleted one down and empties the last slot. */
  method CloseGap(before: seq<Task>, at: nat, count: nat) returns (tasks: seq<Task>)
    requires at < count <= |before|
    ensures |tasks| == |before| && tasks[count - 1] == EmptyTask()
    ensures forall i :: 0 <= i < at ==> tasks[i] == before[i]
    ensures forall i :: at <= i < count - 1 ==> tasks[i] == before[i + 1]
    ensures forall i :: count <= i < |tasks| ==> tasks[i] == before[i]
  {
    tasks := before;
    for index := at to count - 1
      invariant |tasks| == |before|
      invariant forall i :: at <= i < index ==> tasks[i] == before[i + 1]
      invariant forall i :: 0 <= i < |tasks| && !(at <= i < index) ==> tasks[i] == before[i]
    {
      tasks := tasks[index := tasks[index + 1]];
    }
    tasks := tasks[count - 1 := EmptyTask()];
  }

  /** A new task from what has been typed, in a slot whose old text is overwritten in front. */
  method TypedTask(input: seq<Byte>, n: nat, text: seq<Byte>) returns (task: Task)
    requires n <= |input| && |text| == 28
    ensures ValidTask(task) && ItemOf(task) == Board.Item(Board.Clip(input[..n]), false)
  {
    var length := Min(n, 28);
    ClippedText(input, n, text);
    task := Task(input[..length] + text[length..], length, false);
  }

  lemma ClippedText(input: seq<Byte>, n: nat, text: seq<Byte>)
    requires n <= |input| && |text| == 28
    ensures var length := Min(n, 28);
      |input[..length] + text[length..]| == 28 && (input[..length] + text[length..])[..length] == Board.Clip(input[..n])
  {
    var length := Min(n, 28);
    assert (input[..length] + text[length..])[..length] == input[..length];
    assert n >= 28 ==> input[..n][..28] == input[..28];
  }

  predicate AllValid(tasks: seq<Task>)
  {
    forall i :: 0 <= i < |tasks| ==> ValidTask(tasks[i])
  }

  lemma TaskAdded(tasks: seq<Task>, count: nat, t: Task)
    requires count < |tasks| && AllValid(tasks) && ValidTask(t)
    ensures var after := tasks[count := t];
      AllValid(after) && ItemsOf(after[..count + 1]) == ItemsOf(tasks[..count]) + [ItemOf(t)]
  {
  }

  lemma GapClosed(before: seq<Task>, after: seq<Task>, at: nat, count: nat)
    requires AllValid(before) && at < count <= |before| == |after| && after[count - 1] == EmptyTask()
    requires forall i :: 0 <= i < at ==> after[i] == before[i]
    requires forall i :: at <= i < count - 1 ==> after[i] == before[i + 1]
    requires forall i :: count <= i < |after| ==> after[i] == before[i]
    ensures AllValid(after)
    ensures var items := ItemsOf(before[..count]); ItemsOf(after[..count - 1]) == items[..at] + items[at + 1..]
  {
  }

  /** Setting one package leaves the others. */
  lemma Added(v: nat, index: nat)
    requires index < 32 && v < 0x1_0000_0000
    ensures 0 < SetBit(v, index) < 0x1_0000_0000
    ensures forall j :: 0 <= j < 32 ==> (Bit(SetBit(v, index), j) <==> j == index || Bit(v, j))
  {
    Pow2At32();
    SetBitIsBounded(v, index, 32);
    forall j | 0 <= j < 32 ensures Bit(SetBit(v, index), j) <==> j == index || Bit(v, j) {
      BitOfSet(v, index, j);
    }
    NoBitsInZero(index);
  }

  /** Clearing one package leaves the others, and a word without packages is zero. */
  lemma Remaining(v: nat, index: nat)
    requires index < 32 && v < 0x1_0000_0000
    ensures ClearBit(v, index) < 0x1_0000_0000
    ensures forall j :: 0 <= j < 32 ==> (Bit(ClearBit(v, index), j) <==> j != index && Bit(v, j))
    ensures ClearBit(v, index) != 0 ==> exists j :: 0 <= j < 32 && Bit(ClearBit(v, index), j)
    ensures ClearBit(v, index) == 0 ==> forall j :: 0 <= j < 32 ==> !Bit(ClearBit(v, index), j)
  {
    var w := ClearBit(v, index);
    Pow2At32();
    SetBitIsBounded(v, index, 32);
    forall j | 0 <= j < 32 ensures Bit(w, j) <==> j != index && Bit(v, j) {
      BitOfClear(v, index, j);
    }
    if w != 0 {
      var j := SomeBit(w, 32);
    } else {
      forall j | 0 <= j < 32 ensures !Bit(w, j) {
        NoBitsInZero(j);
      }
    }
  }

  /** The search for the first installed package. */
  method FindInstalled(v: nat) returns (r: nat)
    ensures r == FirstInstalled(v, 0)
  {
    var i := 0;
    while i < 32
      invariant i <= 32 && FirstInstalled(v, 0) == FirstInstalled(v, i)
    {
      if Bit(v, i) {
        return i;
      }
      i := i + 1;
    }
    return 0;
  }
}
