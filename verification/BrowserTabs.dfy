/** Browser tabs and their histories, as lists. */
module BrowserSession {
  import opened Bits
  import opened Options

  type Url = seq<Byte>

  /** A tab: its history, the entry it stands on, and how far it is scrolled. */
  datatype Tab = Tab(history: seq<Url>, cursor: nat, scroll: int)

  /** The open tabs, the active one, whether the next load stays out of the history, and the shown scroll. */
  datatype Session = Session(tabs: seq<Tab>, active: nat, locked: bool, scroll: int)

  predicate ValidTab(t: Tab)
  {
    && t.cursor < |t.history| <= 12 && (forall i :: 0 <= i < |t.history| ==> |t.history[i]| <= 512)
    && 0 <= t.scroll <= 8192
  }

  predicate Valid(s: Session)
  {
    && 1 <= |s.tabs| <= 6 && s.active < |s.tabs| && (forall i :: 0 <= i < |s.tabs| ==> ValidTab(s.tabs[i]))
    && 0 <= s.scroll <= 8192
  }

  // "expos://home"
  const HOME_URL: Url := [101, 120, 112, 111, 115, 58, 47, 47, 104, 111, 109, 101]

  const HOME := Tab([HOME_URL], 0, 0)

  /** A history entry keeps the first 512 bytes of its address. */
  function Clip(url: Url): (r: Url)
    ensures |r| <= 512 && r <= url && (|url| <= 512 ==> r == url)
  {
    if |url| <= 512 then url else url[..512]
  }

  function LastTwelve(h: seq<Url>): (r: seq<Url>)
    ensures |r| <= 12 && (|h| <= 12 ==> r == h)
  {
    if |h| <= 12 then h else h[|h| - 12..]
  }

  /** A recorded load: what lay ahead of the cursor is forgotten, the address is added, the oldest fall off. */
  function Record(t: Tab, url: Url): (r: Tab)
    requires ValidTab(t)
    ensures ValidTab(r) && r.history != [] && r.cursor == |r.history| - 1 && r.history[r.cursor] == Clip(url)
  {
    var h := LastTwelve(t.history[..t.cursor + 1] + [Clip(url)]);
    Tab(h, |h| - 1, 0)
  }

  /** A document arrives for the active tab. */
  function Load(s: Session, url: Url): (r: Session)
    requires Valid(s)
    ensures Valid(r)
  {
    var t := s.tabs[s.active];
    var t' := if s.locked then t.(scroll := 0) else Record(t, url);
    Session(s.tabs[s.active := t'], s.active, false, 0)
  }

  /** A navigation loads a document at once, or not at all. */
  function Navigate(s: Session, loaded: Option<Url>): (r: Session)
    requires Valid(s)
    ensures Valid(r)
  {
    if loaded.None? then s else Load(s, loaded.value)
  }

  /** Back (true) or forward, when there is an entry to go to. */
  function Target(t: Tab, back: bool): (i: nat)
    requires ValidTab(t)
    ensures i < |t.history|
  {
    if back then (if t.cursor == 0 then 0 else t.cursor - 1)
    else if t.cursor + 1 < |t.history| then t.cursor + 1 else t.cursor
  }

  /** The cursor moved, and the next load kept out of the history. */
  function Stepped(s: Session, back: bool): (r: Session)
    requires Valid(s)
    ensures Valid(r) && r.locked
  {
    var t := s.tabs[s.active];
    s.(tabs := s.tabs[s.active := t.(cursor := Target(t, back))], locked := true)
  }

  function Move(s: Session, back: bool, loaded: Option<Url>): (r: Session)
    requires Valid(s)
    ensures Valid(r)
  {
    var t := s.tabs[s.active];
    if Target(t, back) == t.cursor then s else Navigate(Stepped(s, back), loaded)
  }

  function Reload(s: Session, loaded: Option<Url>): (r: Session)
    requires Valid(s)
    ensures Valid(r)
  {
    Navigate(s.(locked := true), loaded)
  }

  /** The active tab remembers how far it is scrolled. */
  function Remembered(s: Session): (r: seq<Tab>)
    requires Valid(s)
    ensures |r| == |s.tabs| && forall i :: 0 <= i < |r| ==> ValidTab(r[i])
  {
    s.tabs[s.active := s.tabs[s.active].(scroll := s.scroll)]
  }

  /** A home tab at the end, active. */
  function Wider(s: Session): (r: Session)
    requires Valid(s) && |s.tabs| < 6
    ensures Valid(r) && r.locked
  {
    Session(Remembered(s) + [HOME], |s.tabs|, true, s.scroll)
  }

  function NewTab(s: Session, loaded: Option<Url>): (r: Session)
    requires Valid(s)
    ensures Valid(r)
  {
    if |s.tabs| == 6 then s else Navigate(Wider(s), loaded)
  }

  /** Makes a tab active, loads its page again and scrolls back to where it was. */
  function Show(s: Session, loaded: Option<Url>): (r: Session)
    requires Valid(s)
    ensures Valid(r)
  {
    var scroll := s.tabs[s.active].scroll;
    var r := Navigate(s.(locked := true), loaded);
    r.(scroll := scroll, tabs := r.tabs[r.active := r.tabs[r.active].(scroll := scroll)])
  }

  function Switch(s: Session, index: nat, loaded: Option<Url>): (r: Session)
    requires Valid(s)
    ensures Valid(r)
  {
    if index >= |s.tabs| || index == s.active then s
    else Show(s.(tabs := Remembered(s), active := index), loaded)
  }

  /** One tab taken out; the active one stays active, and if it is the one, the next takes its place. */
  function Without(s: Session, index: nat): (r: Session)
    requires Valid(s) && index < |s.tabs| && 1 < |s.tabs|
    ensures Valid(r)
  {
    var rest := s.tabs[..index] + s.tabs[index + 1..];
    s.(tabs := rest,
       active := if s.active > index then s.active - 1 else if s.active >= |rest| then |rest| - 1 else s.active)
  }

  function Close(s: Session, index: nat, loaded: Option<Url>): (r: Session)
    requires Valid(s)
    ensures Valid(r)
  {
    if index >= |s.tabs| then s
    else if |s.tabs| == 1 then Navigate(s.(tabs := [HOME], locked := true), loaded)
    else Show(Without(s, index), loaded)
  }

  /** The keys that scroll: a step up or down, a page, or back to the top. */
  datatype Scrolling = Up(step: nat) | Down(step: nat) | Page | Top

  function Scrolled(scroll: int, key: Scrolling): (r: int)
    requires 0 <= scroll <= 8192
    ensures 0 <= r <= 8192
  {
    match key
    case Up(step) => if scroll < step then 0 else scroll - step
    case Down(step) => if scroll + step < 8192 then scroll + step else 8192
    case Page => if scroll + 280 < 8192 then scroll + 280 else 8192
    case Top => 0
  }

  function Scroll(s: Session, key: Scrolling): (r: Session)
    requires Valid(s)
    ensures Valid(r)
  {
    var scroll := Scrolled(s.scroll, key);
    s.(scroll := scroll, tabs := s.tabs[s.active := s.tabs[s.active].(scroll := scroll)])
  }

  datatype Step =
    | LoadStep(url: Url)
    | MoveStep(back: bool, loaded: Option<Url>)
    | ReloadStep(loaded: Option<Url>)
    | NewTabStep(loaded: Option<Url>)
    | SwitchStep(index: nat, loaded: Option<Url>)
    | CloseStep(index: nat, loaded: Option<Url>)
    | ScrollStep(key: Scrolling)

  function Next(s: Session, step: Step): (r: Session)
    requires Valid(s)
    ensures Valid(r)
  {
    match step
    case LoadStep(url) => Load(s, url)
    case MoveStep(back, loaded) => Move(s, back, loaded)
    case ReloadStep(loaded) => Reload(s, loaded)
    case NewTabStep(loaded) => NewTab(s, loaded)
    case SwitchStep(index, loaded) => Switch(s, index, loaded)
    case CloseStep(index, loaded) => Close(s, index, loaded)
    case ScrollStep(key) => Scroll(s, key)
  }

  function Run(steps: seq<Step>): (r: Session)
    ensures Valid(r)
  {
    if steps == [] then Session([HOME], 0, false, 0) else Next(Run(steps[..|steps| - 1]), steps[|steps| - 1])
  }

  /** The same histories, and the same entry of each. */
  predicate SamePlaces(a: seq<Tab>, b: seq<Tab>)
  {
    |a| == |b| && forall i :: 0 <= i < |a| ==> a[i].history == b[i].history && a[i].cursor == b[i].cursor
  }

  /** A load that stays out of the history changes no history. */
  lemma LockedLoad(s: Session, loaded: Option<Url>)
    requires Valid(s) && s.locked
    ensures SamePlaces(s.tabs, Navigate(s, loaded).tabs) && Navigate(s, loaded).active == s.active
  {
  }

  lemma ShownAgain(s: Session, loaded: Option<Url>)
    requires Valid(s)
    ensures SamePlaces(s.tabs, Show(s, loaded).tabs) && Show(s, loaded).active == s.active
  {
    LockedLoad(s.(locked := true), loaded);
  }

  /** Where a tab stands after a step that does not close it. */
  function PlaceAfter(s: Session, step: Step, i: nat): nat
  {
    if step.CloseStep? && |s.tabs| > 1 && step.index < i then i - 1 else i
  }

  /** No step changes the history or the cursor of a tab that is not active and is not closed. */
  lemma OtherTabsUntouched(s: Session, step: Step, i: nat)
    requires Valid(s) && i < |s.tabs| && i != s.active && (step.CloseStep? ==> step.index != i)
    ensures var j, r := PlaceAfter(s, step, i), Next(s, step);
      j < |r.tabs| && r.tabs[j].history == s.tabs[i].history && r.tabs[j].cursor == s.tabs[i].cursor
  {
    match step
    case LoadStep(url) =>
    case MoveStep(back, loaded) => MoveKeeps(s, back, loaded, i);
    case ReloadStep(loaded) => LockedLoad(s.(locked := true), loaded);
    case NewTabStep(loaded) => NewTabKeeps(s, loaded, i);
    case SwitchStep(index, loaded) => SwitchKeeps(s, index, loaded, i);
    case CloseStep(index, loaded) => CloseKeeps(s, index, loaded, i);
    case ScrollStep(key) =>
  }

  lemma MoveKeeps(s: Session, back: bool, loaded: Option<Url>, i: nat)
    requires Valid(s) && i < |s.tabs| && i != s.active
    ensures var r := Move(s, back, loaded);
      i < |r.tabs| && r.tabs[i].history == s.tabs[i].history && r.tabs[i].cursor == s.tabs[i].cursor
  {
    LockedLoad(Stepped(s, back), loaded);
  }

  lemma NewTabKeeps(s: Session, loaded: Option<Url>, i: nat)
    requires Valid(s) && i < |s.tabs|
    ensures var r := NewTab(s, loaded);
      i < |r.tabs| && r.tabs[i].history == s.tabs[i].history && r.tabs[i].cursor == s.tabs[i].cursor
  {
    if |s.tabs| < 6 {
      LockedLoad(Wider(s), loaded);
    }
  }

  lemma SwitchKeeps(s: Session, index: nat, loaded: Option<Url>, i: nat)
    requires Valid(s) && i < |s.tabs|
    ensures var r := Switch(s, index, loaded);
      i < |r.tabs| && r.tabs[i].history == s.tabs[i].history && r.tabs[i].cursor == s.tabs[i].cursor
  {
    if index < |s.tabs| {
      ShownAgain(s.(tabs := Remembered(s), active := index), loaded);
    }
  }

  lemma CloseKeeps(s: Session, index: nat, loaded: Option<Url>, i: nat)
    requires Valid(s) && i < |s.tabs| && 1 < |s.tabs| && index != i
    ensures var j, r := if index < i && index < |s.tabs| then i - 1 else i, Close(s, index, loaded);
      j < |r.tabs| && r.tabs[j].history == s.tabs[i].history && r.tabs[j].cursor == s.tabs[i].cursor
  {
    if index < |s.tabs| {
      ShownAgain(Without(s, index), loaded);
      assert Without(s, index).tabs[if index < i then i - 1 else i] == s.tabs[i];
    }
  }

  /** Back and forward are inverse, and neither changes the history, whether or not the pages load. */
  lemma BackThenForward(s: Session, loaded: Option<Url>, loaded': Option<Url>)
    requires Valid(s) && s.tabs[s.active].cursor > 0
    ensures var t := s.tabs[s.active]; var r := Move(Move(s, true, loaded), false, loaded');
      r.active == s.active && r.tabs[r.active].history == t.history && r.tabs[r.active].cursor == t.cursor
  {
    var m := Move(s, true, loaded);
    assert m.tabs[m.active].cursor == s.tabs[s.active].cursor - 1;
    assert m.tabs[m.active].history == s.tabs[s.active].history;
  }

  lemma Switched(s: Session, index: nat, loaded: Option<Url>)
    requires Valid(s) && index < |s.tabs| && index != s.active
    ensures var r := Switch(s, index, loaded);
      && r.active == index && SamePlaces(s.tabs, r.tabs)
      && r.scroll == s.tabs[index].scroll && r.tabs[s.active].scroll == s.scroll
  {
    ShownAgain(s.(tabs := Remembered(s), active := index), loaded);
  }

  /** Going to another tab and back returns to the same place in the same history. */
  lemma SwitchThereAndBack(s: Session, index: nat, loaded: Option<Url>, loaded': Option<Url>)
    requires Valid(s) && index < |s.tabs| && index != s.active
    ensures var r := Switch(Switch(s, index, loaded), s.active, loaded');
      r.active == s.active && r.scroll == s.scroll && SamePlaces(s.tabs, r.tabs)
  {
    Switched(s, index, loaded);
    Switched(Switch(s, index, loaded), s.active, loaded');
  }

  /** Closing another tab leaves the same tab active, on the same entry of the same history. */
  lemma CloseKeepsActive(s: Session, index: nat, loaded: Option<Url>)
    requires Valid(s) && index < |s.tabs| && index != s.active
    ensures var r := Close(s, index, loaded);
      && |r.tabs| == |s.tabs| - 1
      && r.active == (if index < s.active then s.active - 1 else s.active)
      && r.tabs[r.active].history == s.tabs[s.active].history
      && r.tabs[r.active].cursor == s.tabs[s.active].cursor
      && r.scroll == s.tabs[s.active].scroll
  {
  }

  lemma Opened(s: Session, loaded: Option<Url>)
    requires Valid(s) && |s.tabs| < 6
    ensures var r := NewTab(s, loaded);
      |r.tabs| == |s.tabs| + 1 && r.active == |s.tabs| && SamePlaces(s.tabs, r.tabs[..|s.tabs|])
  {
    LockedLoad(Wider(s), loaded);
  }

  lemma LastClosed(s: Session, loaded: Option<Url>)
    requires Valid(s) && |s.tabs| > 1
    ensures SamePlaces(s.tabs[..|s.tabs| - 1], Close(s, |s.tabs| - 1, loaded).tabs)
  {
    var n := |s.tabs| - 1;
    ShownAgain(Without(s, n), loaded);
    assert Without(s, n).tabs == s.tabs[..n];
  }

  /** A new tab that is closed again leaves every history as it was. */
  lemma NewTabThenClose(s: Session, loaded: Option<Url>, loaded': Option<Url>)
    requires Valid(s) && |s.tabs| < 6
    ensures SamePlaces(s.tabs, Close(NewTab(s, loaded), |s.tabs|, loaded').tabs)
  {
    Opened(s, loaded);
    LastClosed(NewTab(s, loaded), loaded');
  }
}

/** The desktop's fixed arrays: six tabs of twelve 512-byte history slots, shifted in place. */
module BrowserTabs {
  import opened Bits
  import opened BrowserSession
  import opened Options

  /** An address buffer; only its first `length` bytes count. */
  datatype Slot = Slot(buffer: seq<Byte>, length: nat)

  datatype TabState = TabState(slots: seq<Slot>, count: nat, cursor: nat, scroll: int)

  predicate SlotOk(s: Slot)
  {
    |s.buffer| == 512 && s.length <= 512
  }

  predicate Shape(t: TabState)
  {
    |t.slots| == 12 && t.count <= 12 && forall i :: 0 <= i < 12 ==> SlotOk(t.slots[i])
  }

  function Address(s: Slot): Url
    requires SlotOk(s)
  {
    s.buffer[..s.length]
  }

  /** The list a tab's slots stand for. */
  function View(t: TabState): (r: Tab)
    requires Shape(t)
    ensures |r.history| == t.count
  {
    Tab(seq(t.count, i requires 0 <= i < t.count => Address(t.slots[i])), t.cursor, t.scroll)
  }

  function Store(s: Slot, url: Url): (r: Slot)
    requires SlotOk(s)
    ensures SlotOk(r) && Address(r) == Clip(url)
  {
    var length := if |url| < 512 then |url| else 512;
    Slot(url[..length] + s.buffer[length..], length)
  }

  function Blank(): (s: Slot)
    ensures SlotOk(s)
  {
    Slot(seq(512, _ => 0), 0)
  }

  function Empty(): (t: TabState)
    ensures Shape(t)
  {
    TabState(seq(12, _ => Blank()), 0, 0, 0)
  }

  function Home(): (t: TabState)
    ensures Shape(t)
  {
    TabState(Empty().slots[0 := Store(Blank(), HOME_URL)], 1, 0, 0)
  }

  lemma HomeView()
    ensures View(Home()) == HOME
  {
    assert View(Home()).history == [HOME_URL];
  }

  /** Saturating decrement. */
  function Less(n: nat): nat { if n == 0 then 0 else n - 1 }

  predicate Shapes(ts: seq<TabState>)
  {
    forall i :: 0 <= i < |ts| ==> Shape(ts[i])
  }

  function Views(ts: seq<TabState>): (r: seq<Tab>)
    requires Shapes(ts)
    ensures |r| == |ts| && forall i :: 0 <= i < |ts| ==> r[i] == View(ts[i])
  {
    seq(|ts|, i requires 0 <= i < |ts| => View(ts[i]))
  }

  /** Adds an address to a tab's history: cuts what lies ahead, shifts a full history down by one, appends. */
  method Push(tab0: TabState, url: Url) returns (tab: TabState)
    requires Shape(tab0) && ValidTab(View(tab0))
    ensures Shape(tab) && View(tab).history == Record(View(tab0), url).history
    ensures tab.cursor == Record(View(tab0), url).cursor && tab.scroll == tab0.scroll
  {
    tab := tab0;
    var cursor, count := tab.cursor, tab.count;
    if cursor + 1 < count {
      tab := tab.(count := cursor + 1);
    }
    ghost var kept := View(tab0).history[..cursor + 1];
    assert View(tab).history == kept;
    if tab.count == 12 {
      tab := ShiftDown(tab);
      tab := tab.(count := tab.count - 1, cursor := Less(tab.cursor));
      assert View(tab).history == kept[1..];
    }
    var index := tab.count;
    tab := tab.(slots := tab.slots[index := Store(tab.slots[index], url)], count := index + 1);
    tab := tab.(cursor := tab.count - 1);
    assert View(tab).history == (if |kept| == 12 then kept[1..] else kept) + [Clip(url)];
  }

  method ShiftDown(tab0: TabState) returns (tab: TabState)
    requires Shape(tab0)
    ensures Shape(tab) && tab == tab0.(slots := tab.slots)
    ensures forall i :: 0 <= i < 11 ==> tab.slots[i] == tab0.slots[i + 1]
  {
    tab := tab0;
    for index := 1 to 12
      invariant Shape(tab) && tab == tab0.(slots := tab.slots)
      invariant forall i :: 0 <= i < index - 1 ==> tab.slots[i] == tab0.slots[i + 1]
      invariant forall i :: index - 1 <= i < 12 ==> tab.slots[i] == tab0.slots[i]
    {
      tab := tab.(slots := tab.slots[index - 1 := tab.slots[index]]);
    }
  }

  /** The entry before or behind the cursor, as far as there is one. */
  method NextEntry(tab: TabState, back: bool) returns (next: nat)
    requires Shape(tab) && ValidTab(View(tab))
    ensures next == Target(View(tab), back)
  {
    var cursor, count := tab.cursor, tab.count;
    next := if back then Less(cursor) else if cursor + 1 < Less(count) then cursor + 1 else Less(count);
  }

  class Browser {
    const tabs: array<TabState>
    var tabCount: nat
    var activeTab: nat
    var locked: bool
    var scroll: int

    ghost predicate Ok()
      reads this, tabs
    {
      tabs.Length == 6 && Shapes(tabs[..]) && tabCount <= 6 && Valid(Now())
    }

    /** The session these arrays stand for. */
    ghost function Now(): Session
      requires tabs.Length == 6 && Shapes(tabs[..]) && tabCount <= 6
      reads this, tabs
    {
      Session(Views(tabs[..tabCount]), activeTab, locked, scroll)
    }

    constructor ()
      ensures Ok() && fresh(tabs)
      ensures Now() == Run([])
    {
      tabs := new TabState[6](_ => Empty());
      tabCount, activeTab, locked, scroll := 1, 0, false, 0;
      new;
      tabs[0] := Home();
      HomeView();
      assert Views(tabs[..1]) == [HOME];
    }

    /** Replaces one open tab. */
    method SetTab(index: nat, tab: TabState)
      requires tabs.Length == 6 && Shapes(tabs[..]) && index < tabCount <= 6 && Shape(tab)
      modifies tabs
      ensures Shapes(tabs[..])
      ensures Now() == old(Now()).(tabs := old(Now()).tabs[index := View(tab)])
    {
      tabs[index] := tab;
      assert Views(tabs[..tabCount]) == old(Views(tabs[..tabCount]))[index := View(tab)];
    }

    /** A document arrives: recorded in the active tab's history, unless the load was a history move. */
    method SetDocument(url: Url)
      requires Ok()
      modifies this, tabs
      ensures Ok() && Now() == Load(old(Now()), url)
    {
      var tab := tabs[activeTab];
      assert View(tab) == Now().tabs[activeTab];
      if locked {
        locked := false;
      } else {
        tab := Push(tab, url);
      }
      tab := tab.(scroll := 0);
      SetTab(activeTab, tab);
      scroll := 0;
    }

    method NavigateAddress(loaded: Option<Url>)
      requires Ok()
      modifies this, tabs
      ensures Ok() && Now() == Navigate(old(Now()), loaded)
    {
      if loaded.Some? {
        SetDocument(loaded.value);
      }
    }

    /** Steps back or forward and asks for that entry's address; `loaded` is what comes of it. */
    method HistoryMove(back: bool, loaded: Option<Url>) returns (address: Option<Url>)
      requires Ok()
      modifies this, tabs
      ensures Ok() && Now() == Move(old(Now()), back, loaded)
      ensures var t := old(Now().tabs[activeTab]);
        address == if Target(t, back) == t.cursor then None else Some(t.history[Target(t, back)])
    {
      var tab := tabs[activeTab];
      assert View(tab) == Now().tabs[activeTab];
      var next := NextEntry(tab, back);
      if next == tab.cursor {
        return None;
      }
      address := Some(Address(tab.slots[next]));
      StepTo(next, back);
      NavigateAddress(loaded);
    }

    /** Puts the cursor on the entry and keeps the load that follows out of the history. */
    method StepTo(next: nat, ghost back: bool)
      requires Ok() && next == Target(Now().tabs[activeTab], back)
      modifies this, tabs
      ensures Ok() && Now() == Stepped(old(Now()), back)
    {
      var tab := tabs[activeTab];
      assert View(tab) == Now().tabs[activeTab];
      assert View(tab.(cursor := next)) == View(tab).(cursor := next);
      SetTab(activeTab, tab.(cursor := next));
      locked := true;
    }

    method ReloadPage(loaded: Option<Url>)
      requires Ok()
      modifies this, tabs
      ensures Ok() && Now() == Reload(old(Now()), loaded)
    {
      locked := true;
      NavigateAddress(loaded);
    }

    /** Remembers how far the active tab is scrolled. */
    method KeepScroll()
      requires Ok()
      modifies tabs
      ensures Ok()
      ensures Now() == old(Now()).(tabs := old(Now()).tabs[activeTab := old(Now()).tabs[activeTab].(scroll := scroll)])
    {
      var tab := tabs[activeTab];
      assert View(tab) == Now().tabs[activeTab];
      assert View(tab.(scroll := scroll)) == View(tab).(scroll := scroll);
      SetTab(activeTab, tab.(scroll := scroll));
    }

    method OpenTab(loaded: Option<Url>)
      requires Ok()
      modifies this, tabs
      ensures Ok() && Now() == NewTab(old(Now()), loaded)
    {
      if tabCount == 6 {
        return;
      }
      KeepScroll();
      ghost var kept := Now();
      var index := tabCount;
      tabs[index] := Home();
      HomeView();
      tabCount := tabCount + 1;
      activeTab := index;
      locked := true;
      assert Views(tabs[..tabCount]) == kept.tabs + [HOME];
      NavigateAddress(loaded);
    }

    /** Reloads the active tab's page and scrolls it back. */
    method ShowActive(loaded: Option<Url>)
      requires Ok()
      modifies this, tabs
      ensures Ok() && Now() == Show(old(Now()), loaded)
    {
      var kept := tabs[activeTab].scroll;
      assert View(tabs[activeTab]) == Now().tabs[activeTab];
      locked := true;
      NavigateAddress(loaded);
      scroll := kept;
      KeepScroll();
    }

    /** A key that scrolls the page; the active tab remembers how far. */
    method ScrollPage(key: Scrolling)
      requires Ok()
      modifies this, tabs
      ensures Ok() && Now() == Scroll(old(Now()), key)
    {
      match key {
        case Up(step) => scroll := if scroll - step < 0 then 0 else scroll - step;
        case Down(step) => scroll := if scroll + step < 8192 then scroll + step else 8192;
        case Page => scroll := if scroll + 280 < 8192 then scroll + 280 else 8192;
        case Top => scroll := 0;
      }
      KeepScroll();
    }

    method SwitchTab(index: nat, loaded: Option<Url>)
      requires Ok()
      modifies this, tabs
      ensures Ok() && Now() == Switch(old(Now()), index, loaded)
    {
      if index >= tabCount || index == activeTab {
        return;
      }
      KeepScroll();
      activeTab := index;
      ShowActive(loaded);
    }

    method CloseTab(index: nat, loaded: Option<Url>)
      requires Ok()
      modifies this, tabs
      ensures Ok() && Now() == Close(old(Now()), index, loaded)
    {
      if index >= tabCount {
        return;
      }
      if tabCount == 1 {
        ResetOnly(loaded);
      } else {
        CloseOne(index, loaded);
      }
    }

    /** The last tab is not closed but sent home. */
    method ResetOnly(loaded: Option<Url>)
      requires Ok() && tabCount == 1
      modifies this, tabs
      ensures Ok() && Now() == Close(old(Now()), 0, loaded)
    {
      HomeView();
      SetTab(0, Home());
      locked := true;
      assert Now().tabs == [HOME];
      NavigateAddress(loaded);
    }

    method CloseOne(index: nat, loaded: Option<Url>)
      requires Ok() && index < tabCount && tabCount > 1
      modifies this, tabs
      ensures Ok() && Now() == Close(old(Now()), index, loaded)
    {
      TakeOut(index);
      ShowActive(loaded);
    }

    method TakeOut(index: nat)
      requires Ok() && index < tabCount && tabCount > 1
      modifies this, tabs
      ensures Ok() && Now() == Without(old(Now()), index)
    {
      RemoveTab(index);
      if activeTab > index {
        activeTab := activeTab - 1;
      } else if activeTab >= tabCount {
        activeTab := tabCount - 1;
      }
    }

    /** Shifts the tabs behind `index` down and clears the place that becomes free. */
    method RemoveTab(index: nat)
      requires tabs.Length == 6 && Shapes(tabs[..]) && index < tabCount <= 6
      modifies this`tabCount, tabs
      ensures Shapes(tabs[..]) && tabCount == old(tabCount) - 1
      ensures Now() == old(Now().(tabs := Now().tabs[..index] + Now().tabs[index + 1..]))
    {
      for tab := index + 1 to tabCount
        invariant tabCount == old(tabCount) && Shapes(tabs[..])
        invariant forall i :: 0 <= i < index ==> tabs[i] == old(tabs[i])
        invariant forall i :: index <= i < tab - 1 ==> tabs[i] == old(tabs[i + 1])
        invariant forall i :: tab - 1 <= i < 6 ==> tabs[i] == old(tabs[i])
      {
        tabs[tab - 1] := tabs[tab];
      }
      tabCount := tabCount - 1;
      tabs[tabCount] := Empty();
    }

    method Perform(step: Step)
      requires Ok()
      modifies this, tabs
      ensures Ok() && Now() == Next(old(Now()), step)
    {
      match step
      case LoadStep(url) => SetDocument(url);
      case MoveStep(back, loaded) => var address := HistoryMove(back, loaded);
      case ReloadStep(loaded) => ReloadPage(loaded);
      case ScrollStep(key) => ScrollPage(key);
      case _ => PerformOnTabs(step);
    }

    method PerformOnTabs(step: Step)
      requires Ok() && (step.NewTabStep? || step.SwitchStep? || step.CloseStep?)
      modifies this, tabs
      ensures Ok() && Now() == Next(old(Now()), step)
    {
      match step
      case NewTabStep(loaded) => OpenTab(loaded);
      case SwitchStep(index, loaded) => SwitchTab(index, loaded);
      case CloseStep(index, loaded) => CloseTab(index, loaded);
    }
  }

  /** Every run of the arrays is a run of the session. */
  method RunSteps(steps: seq<Step>) returns (browser: Browser)
    ensures fresh(browser) && browser.Ok() && browser.Now() == Run(steps)
  {
    browser := new Browser();
    for i := 0 to |steps|
      invariant fresh(browser) && fresh(browser.tabs) && browser.Ok() && browser.Now() == Run(steps[..i])
    {
      NextRun(steps, i);
      browser.Perform(steps[i]);
    }
    assert steps[..|steps|] == steps;
  }

  lemma NextRun(steps: seq<Step>, i: nat)
    requires i < |steps|
    ensures Run(steps[..i + 1]) == Next(Run(steps[..i]), steps[i])
  {
    assert steps[..i + 1][..i] == steps[..i];
  }
}
