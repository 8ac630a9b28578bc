/** The browser with histories that never forget, of which the tabs keep the end. */
module BrowserHistory {
  import opened BrowserSession
  import opened Options

  /** Everything a tab has visited and not cut off, the entry it stands on, and how many of the oldest are out of
      reach: a load leaves at most twelve within it. */
  datatype LongTab = LongTab(full: seq<Url>, position: nat, edge: nat, scroll: int)

  datatype LongSession = LongSession(tabs: seq<LongTab>, active: nat, locked: bool, scroll: int)

  predicate LongTabOk(t: LongTab)
  {
    && t.edge <= t.position < |t.full| <= t.edge + 12 && 0 <= t.scroll <= 8192
    && (forall i :: 0 <= i < |t.full| ==> |t.full[i]| <= 512)
  }

  predicate LongOk(s: LongSession)
  {
    && 1 <= |s.tabs| <= 6 && s.active < |s.tabs| && (forall i :: 0 <= i < |s.tabs| ==> LongTabOk(s.tabs[i]))
    && 0 <= s.scroll <= 8192
  }

  const LONG_HOME := LongTab([HOME_URL], 0, 0, 0)

  function Max(a: int, b: int): int { if a < b then b else a }

  /** A recorded load: the entries ahead are cut off and the address is added; nothing falls off the other end, but
      all except the last twelve move out of reach for good. */
  function LongRecord(t: LongTab, url: Url): (r: LongTab)
    requires LongTabOk(t)
    ensures LongTabOk(r)
  {
    var full := t.full[..t.position + 1] + [Clip(url)];
    LongTab(full, |full| - 1, Max(t.edge, |full| - 12), 0)
  }

  function LongLoad(s: LongSession, url: Url): (r: LongSession)
    requires LongOk(s)
    ensures LongOk(r)
  {
    var t := s.tabs[s.active];
    LongSession(s.tabs[s.active := if s.locked then t.(scroll := 0) else LongRecord(t, url)], s.active, false, 0)
  }

  function LongNavigate(s: LongSession, loaded: Option<Url>): (r: LongSession)
    requires LongOk(s)
    ensures LongOk(r)
  {
    if loaded.None? then s else LongLoad(s, loaded.value)
  }

  /** Back goes one entry back unless the entry is at the edge; forward goes on as far as there are entries. */
  function LongTarget(t: LongTab, back: bool): (i: nat)
    requires LongTabOk(t)
    ensures t.edge <= i < |t.full|
  {
    if back then (if t.position == t.edge then t.position else t.position - 1)
    else if t.position + 1 < |t.full| then t.position + 1 else t.position
  }

  function LongStepped(s: LongSession, back: bool): (r: LongSession)
    requires LongOk(s)
    ensures LongOk(r)
  {
    var t := s.tabs[s.active];
    s.(tabs := s.tabs[s.active := t.(position := LongTarget(t, back))], locked := true)
  }

  function LongRemembered(s: LongSession): (r: seq<LongTab>)
    requires LongOk(s)
    ensures |r| == |s.tabs| && forall i :: 0 <= i < |r| ==> LongTabOk(r[i])
  {
    s.tabs[s.active := s.tabs[s.active].(scroll := s.scroll)]
  }

  function LongWider(s: LongSession): (r: LongSession)
    requires LongOk(s) && |s.tabs| < 6
    ensures LongOk(r)
  {
    LongSession(LongRemembered(s) + [LONG_HOME], |s.tabs|, true, s.scroll)
  }

  function LongShow(s: LongSession, loaded: Option<Url>): (r: LongSession)
    requires LongOk(s)
    ensures LongOk(r)
  {
    var scroll := s.tabs[s.active].scroll;
    var r := LongNavigate(s.(locked := true), loaded);
    r.(scroll := scroll, tabs := r.tabs[r.active := r.tabs[r.active].(scroll := scroll)])
  }

  function LongWithout(s: LongSession, index: nat): (r: LongSession)
    requires LongOk(s) && index < |s.tabs| && 1 < |s.tabs|
    ensures LongOk(r)
  {
    var rest := s.tabs[..index] + s.tabs[index + 1..];
    s.(tabs := rest,
       active := if s.active > index then s.active - 1 else if s.active >= |rest| then |rest| - 1 else s.active)
  }

  function LongScroll(s: LongSession, key: Scrolling): (r: LongSession)
    requires LongOk(s)
    ensures LongOk(r)
  {
    var scroll := Scrolled(s.scroll, key);
    s.(scroll := scroll, tabs := s.tabs[s.active := s.tabs[s.active].(scroll := scroll)])
  }

  function LongNext(s: LongSession, step: Step): (r: LongSession)
    requires LongOk(s)
    ensures LongOk(r)
  {
    match step
    case LoadStep(url) => LongLoad(s, url)
    case MoveStep(back, loaded) =>
      if LongTarget(s.tabs[s.active], back) == s.tabs[s.active].position then s
      else LongNavigate(LongStepped(s, back), loaded)
    case ReloadStep(loaded) => LongNavigate(s.(locked := true), loaded)
    case NewTabStep(loaded) => if |s.tabs| == 6 then s else LongNavigate(LongWider(s), loaded)
    case SwitchStep(index, loaded) =>
      if index >= |s.tabs| || index == s.active then s
      else LongShow(s.(tabs := LongRemembered(s), active := index), loaded)
    case CloseStep(index, loaded) =>
      if index >= |s.tabs| then s
      else if |s.tabs| == 1 then LongNavigate(s.(tabs := [LONG_HOME], locked := true), loaded)
      else LongShow(LongWithout(s, index), loaded)
    case ScrollStep(key) => LongScroll(s, key)
  }

  function LongRun(steps: seq<Step>): (r: LongSession)
    ensures LongOk(r)
  {
    if steps == [] then LongSession([LONG_HOME], 0, false, 0)
    else LongNext(LongRun(steps[..|steps| - 1]), steps[|steps| - 1])
  }

  // What the bounded tabs keep.

  function EndOf(t: LongTab): Tab
    requires LongTabOk(t)
  {
    Tab(t.full[t.edge..], t.position - t.edge, t.scroll)
  }

  function Ends(ts: seq<LongTab>): (r: seq<Tab>)
    requires forall i :: 0 <= i < |ts| ==> LongTabOk(ts[i])
    ensures |r| == |ts| && forall i :: 0 <= i < |r| ==> r[i] == EndOf(ts[i])
  {
    seq(|ts|, i requires 0 <= i < |ts| => EndOf(ts[i]))
  }

  function EndsOf(s: LongSession): (r: Session)
    requires LongOk(s)
    ensures Valid(r)
  {
    Session(Ends(s.tabs), s.active, s.locked, s.scroll)
  }

  /** A bounded history stays the end of the one that never forgets. */
  lemma RecordKeepsEnd(t: LongTab, url: Url)
    requires LongTabOk(t)
    ensures ValidTab(EndOf(t)) && EndOf(LongRecord(t, url)) == Record(EndOf(t), url)
  {
    var r := LongRecord(t, url);
    var kept := EndOf(t).history[..t.position - t.edge + 1] + [Clip(url)];
    assert kept == r.full[t.edge..];
    if |kept| > 12 {
      assert kept[|kept| - 12..] == r.full[|r.full| - 12..];
    }
  }

  lemma LoadKeepsEnds(s: LongSession, url: Url)
    requires LongOk(s)
    ensures EndsOf(LongLoad(s, url)) == Load(EndsOf(s), url)
  {
    RecordKeepsEnd(s.tabs[s.active], url);
    assert EndsOf(LongLoad(s, url)).tabs == Load(EndsOf(s), url).tabs;
  }

  lemma NavigateKeepsEnds(s: LongSession, loaded: Option<Url>)
    requires LongOk(s)
    ensures EndsOf(LongNavigate(s, loaded)) == Navigate(EndsOf(s), loaded)
  {
    if loaded.Some? {
      LoadKeepsEnds(s, loaded.value);
    }
  }

  /** Back stops exactly at the edge. */
  lemma TargetKeepsEnd(t: LongTab, back: bool)
    requires LongTabOk(t)
    ensures ValidTab(EndOf(t)) && Target(EndOf(t), back) == LongTarget(t, back) - t.edge
    ensures EndOf(t.(position := LongTarget(t, back))) == EndOf(t).(cursor := Target(EndOf(t), back))
  {
  }

  lemma StepKeepsEnds(s: LongSession, back: bool)
    requires LongOk(s)
    ensures EndsOf(LongStepped(s, back)) == Stepped(EndsOf(s), back)
  {
    TargetKeepsEnd(s.tabs[s.active], back);
    assert EndsOf(LongStepped(s, back)).tabs == Stepped(EndsOf(s), back).tabs;
  }

  lemma RememberKeepsEnds(s: LongSession)
    requires LongOk(s)
    ensures Ends(LongRemembered(s)) == Remembered(EndsOf(s))
  {
  }

  lemma ShowKeepsEnds(s: LongSession, loaded: Option<Url>)
    requires LongOk(s)
    ensures EndsOf(LongShow(s, loaded)) == Show(EndsOf(s), loaded)
  {
    NavigateKeepsEnds(s.(locked := true), loaded);
    assert EndsOf(s.(locked := true)) == EndsOf(s).(locked := true);
    assert EndsOf(LongShow(s, loaded)).tabs == Show(EndsOf(s), loaded).tabs;
  }

  lemma WiderKeepsEnds(s: LongSession)
    requires LongOk(s) && |s.tabs| < 6
    ensures EndsOf(LongWider(s)) == Wider(EndsOf(s))
  {
    RememberKeepsEnds(s);
    assert EndOf(LONG_HOME) == HOME;
    assert EndsOf(LongWider(s)).tabs == Wider(EndsOf(s)).tabs;
  }

  lemma WithoutKeepsEnds(s: LongSession, index: nat)
    requires LongOk(s) && index < |s.tabs| && 1 < |s.tabs|
    ensures EndsOf(LongWithout(s, index)) == Without(EndsOf(s), index)
  {
    assert EndsOf(LongWithout(s, index)).tabs == Without(EndsOf(s), index).tabs;
  }

  lemma NextKeepsEnds(s: LongSession, step: Step)
    requires LongOk(s)
    ensures EndsOf(LongNext(s, step)) == Next(EndsOf(s), step)
  {
    match step
    case LoadStep(url) => LoadKeepsEnds(s, url);
    case MoveStep(back, loaded) =>
      TargetKeepsEnd(s.tabs[s.active], back);
      StepKeepsEnds(s, back);
      NavigateKeepsEnds(LongStepped(s, back), loaded);
    case ReloadStep(loaded) =>
      NavigateKeepsEnds(s.(locked := true), loaded);
    case NewTabStep(loaded) =>
      if |s.tabs| < 6 {
        WiderKeepsEnds(s);
        NavigateKeepsEnds(LongWider(s), loaded);
      }
    case SwitchStep(index, loaded) =>
      if index < |s.tabs| {
        RememberKeepsEnds(s);
        ShowKeepsEnds(s.(tabs := LongRemembered(s), active := index), loaded);
      }
    case CloseStep(index, loaded) =>
      CloseKeepsEnds(s, index, loaded);
    case ScrollStep(key) =>
      assert EndsOf(LongScroll(s, key)).tabs == Scroll(EndsOf(s), key).tabs;
  }

  lemma CloseKeepsEnds(s: LongSession, index: nat, loaded: Option<Url>)
    requires LongOk(s)
    ensures EndsOf(LongNext(s, CloseStep(index, loaded))) == Close(EndsOf(s), index, loaded)
  {
    if index < |s.tabs| && |s.tabs| == 1 {
      assert Ends([LONG_HOME]) == [HOME];
      NavigateKeepsEnds(s.(tabs := [LONG_HOME], locked := true), loaded);
    } else if index < |s.tabs| {
      WithoutKeepsEnds(s, index);
      ShowKeepsEnds(LongWithout(s, index), loaded);
    }
  }

  /** Over every run, each tab's history is the part of its unbounded history within reach, seen from the same entry:
      forgetting is the only difference, and it shows only as back stopping at the edge. */
  lemma {:induction false} RunKeepsEnds(steps: seq<Step>)
    ensures EndsOf(LongRun(steps)) == Run(steps)
  {
    if steps == [] {
      assert Ends([LONG_HOME]) == [HOME];
    } else {
      var n := |steps| - 1;
      RunKeepsEnds(steps[..n]);
      NextKeepsEnds(LongRun(steps[..n]), steps[n]);
    }
  }
}
