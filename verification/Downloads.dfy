/** The download card of the browser surface: `show_download`, `schedule_downloads_hide`, `set_tab` and `attach`. */
module Downloads {
  import opened Basics

  type Tab = string

  datatype DownloadState = InProgress | Completed | Canceled | Blocked

  datatype Download = Download(guid: string, tab: Tab, received: nat, state: DownloadState)

  const MAX_DOWNLOADS_SHOWN: nat := 4

  // ----- the rows -----

  /** The first row with the guid, or the number of rows. */
  function IndexOf(rows: seq<Download>, guid: string): (i: nat)
    ensures i <= |rows|
    ensures i < |rows| ==> rows[i].guid == guid
    ensures forall j :: 0 <= j < i ==> rows[j].guid != guid
  {
    if rows == [] || rows[0].guid == guid then 0 else 1 + IndexOf(rows[1..], guid)
  }

  /** The newest rows that fit. */
  function Newest(rows: seq<Download>): seq<Download> { rows[|rows| - Min(|rows|, MAX_DOWNLOADS_SHOWN)..] }

  /** A known guid updates its row in place; a new one goes last. */
  function Shown(rows: seq<Download>, download: Download): seq<Download> {
    var i := IndexOf(rows, download.guid);
    Newest(if i < |rows| then rows[i := download] else rows + [download])
  }

  predicate AnyInProgress(rows: seq<Download>) { exists i :: 0 <= i < |rows| && rows[i].state == InProgress }

  /** The rows a firing timer keeps: what is still arriving. */
  function StillArriving(rows: seq<Download>): (kept: seq<Download>)
    ensures forall d :: d in kept <==> d in rows && d.state == InProgress
  {
    if rows == [] then []
    else (if rows[0].state == InProgress then [rows[0]] else []) + StillArriving(rows[1..])
  }

  // ----- the panel -----

  datatype Panel = Panel(tab: Option<Tab>, attached: bool, rows: seq<Download>, timer: bool)

  datatype Event = Attach(to: Tab) | SetTab(target: Option<Tab>) | Show(download: Download) | Dismiss | TimerFires

  /** The rows with the hide timer armed as `schedule_downloads_hide` leaves it. */
  function Scheduled(p: Panel): Panel { p.(timer := p.rows != [] && !AnyInProgress(p.rows)) }

  function Step(p: Panel, e: Event): Panel {
    match e
    case Attach(tab) => if p.tab == Some(tab) && p.attached then p else p.(tab := Some(tab), attached := true)
    case SetTab(tab) => if p.tab == tab then p else p.(tab := tab, rows := [], timer := false)
    case Show(download) =>
      if p.tab != Some(download.tab) then p else Scheduled(p.(rows := Shown(p.rows, download)))
    case Dismiss => p.(rows := [], timer := false)
    case TimerFires => if !p.timer then p else p.(rows := StillArriving(p.rows), timer := false)
  }

  class DownloadPanel {
    var tabId: Option<Tab>
    var transport: bool
    var downloads: seq<Download>
    var hideTask: bool

    ghost function Value(): Panel
      reads this
    {
      Panel(tabId, transport, downloads, hideTask)
    }

    constructor ()
      ensures Value() == Panel(None, false, [], false)
    {
      tabId, transport, downloads, hideTask := None, false, [], false;
    }

    method AttachTab(tab: Tab)
      modifies this
      ensures Value() == Step(old(Value()), Attach(tab))
    {
      if tabId == Some(tab) && transport {
        return;
      }
      transport := true;
      tabId := Some(tab);
    }

    method ChangeTab(tab: Option<Tab>)
      modifies this
      ensures Value() == Step(old(Value()), SetTab(tab))
    {
      if tabId == tab {
        return;
      }
      tabId := tab;
      downloads := [];
      hideTask := false;
    }

    method ShowDownload(download: Download)
      modifies this
      ensures Value() == Step(old(Value()), Show(download))
    {
      hide IndexOf, AnyInProgress, StillArriving;
      if tabId != Some(download.tab) {
        return;
      }
      var i := FindRow(download.guid);
      if i < |downloads| {
        downloads := downloads[i := download];
      } else {
        downloads := downloads + [download];
      }
      if |downloads| > MAX_DOWNLOADS_SHOWN {
        var excess := |downloads| - MAX_DOWNLOADS_SHOWN;
        downloads := downloads[excess..];
      }
      ScheduleHide();
    }

    /** `iter_mut().find`: the first row with the guid. */
    method FindRow(guid: string) returns (i: nat)
      ensures i == IndexOf(downloads, guid)
    {
      i := 0;
      while i < |downloads| && downloads[i].guid != guid
        invariant i <= IndexOf(downloads, guid)
      {
        i := i + 1;
      }
    }

    method ScheduleHide()
      modifies this`hideTask
      ensures Value() == Scheduled(old(Value()))
    {
      hideTask := false;
      var i := 0;
      while i < |downloads|
        invariant i <= |downloads|
        invariant forall j :: 0 <= j < i ==> downloads[j].state != InProgress
      {
        if downloads[i].state == InProgress {
          return;
        }
        i := i + 1;
      }
      if downloads == [] {
        return;
      }
      hideTask := true;
    }

    method DismissCard()
      modifies this
      ensures Value() == Step(old(Value()), Dismiss)
    {
      downloads := [];
      hideTask := false;
    }

    /** The armed timer runs out. */
    method HideTimerFires()
      requires hideTask
      modifies this
      ensures Value() == Step(old(Value()), TimerFires)
    {
      hideTask := false;
      downloads := StillArriving(downloads);
    }
  }

  // ----- every run -----

  predicate DistinctGuids(rows: seq<Download>) {
    forall i, j :: 0 <= i < j < |rows| ==> rows[i].guid != rows[j].guid
  }

  /** At most four rows, one a download, and the timer armed exactly when there are rows and all have ended. */
  predicate Sound(p: Panel) {
    && |p.rows| <= MAX_DOWNLOADS_SHOWN && DistinctGuids(p.rows)
    && (p.timer <==> p.rows != [] && !AnyInProgress(p.rows))
  }

  predicate OfCurrentTab(p: Panel) { forall d :: d in p.rows ==> p.tab == Some(d.tab) }

  /** The latest announcement of a download. */
  function Latest(log: seq<Download>, guid: string): Option<Download> {
    if log == [] then None
    else if log[|log| - 1].guid == guid then Some(log[|log| - 1])
    else Latest(log[..|log| - 1], guid)
  }

  predicate UpToDate(p: Panel, log: seq<Download>) {
    forall d :: d in p.rows ==> Latest(log, d.guid) == Some(d)
  }

  /** The announcements the panel accepts at a step. */
  function Accepted(p: Panel, e: Event): seq<Download> {
    if e.Show? && p.tab == Some(e.download.tab) then [e.download] else []
  }

  function Run(p: Panel, events: seq<Event>): Panel
    decreases |events|
  {
    if events == [] then p else Run(Step(p, events[0]), events[1..])
  }

  function Log(p: Panel, events: seq<Event>): seq<Download>
    decreases |events|
  {
    if events == [] then [] else Accepted(p, events[0]) + Log(Step(p, events[0]), events[1..])
  }

  const BLANK: Panel := Panel(None, false, [], false)

  lemma UpdatedRow(rows: seq<Download>, download: Download, i: nat)
    requires |rows| <= MAX_DOWNLOADS_SHOWN && DistinctGuids(rows) && i < |rows| && rows[i].guid == download.guid
    ensures var shown := Newest(rows[i := download]);
            && shown == rows[i := download] && DistinctGuids(shown) && download in shown
            && (forall d :: d in shown && d.guid != download.guid ==> d in rows)
            && (forall d :: d in shown && d.guid == download.guid ==> d == download)
            && (forall d :: d in rows && d.guid != download.guid ==> d in shown)
  {
    var updated := rows[i := download];
    assert Newest(updated) == updated && updated[i] == download;
    forall d | d in rows && d.guid != download.guid
      ensures d in updated
    {
      var k :| 0 <= k < |rows| && rows[k] == d;
      assert updated[k] == d;
    }
  }

  lemma AppendedRow(rows: seq<Download>, download: Download)
    requires |rows| <= MAX_DOWNLOADS_SHOWN && DistinctGuids(rows)
    requires forall j :: 0 <= j < |rows| ==> rows[j].guid != download.guid
    ensures var shown := Newest(rows + [download]);
            && shown == rows[if |rows| < MAX_DOWNLOADS_SHOWN then 0 else 1..] + [download]
            && DistinctGuids(shown) && download in shown
            && (forall d :: d in shown && d.guid != download.guid ==> d in rows)
            && (forall d :: d in shown && d.guid == download.guid ==> d == download)
  {
    var kept := rows[if |rows| < MAX_DOWNLOADS_SHOWN then 0 else 1..];
    assert Newest(rows + [download]) == kept + [download];
    assert (kept + [download])[|kept|] == download;
  }

  /** Showing a download keeps the rows apart and bounded, ends with a row for it, and changes no other row: a known
      download is updated in place, a new one goes last and pushes out the oldest row of a full card. */
  lemma ShownRows(rows: seq<Download>, download: Download)
    requires |rows| <= MAX_DOWNLOADS_SHOWN && DistinctGuids(rows)
    ensures var shown, i := Shown(rows, download), IndexOf(rows, download.guid);
            && shown == (if i < |rows| then rows[i := download]
                         else rows[if |rows| < MAX_DOWNLOADS_SHOWN then 0 else 1..] + [download])
            && |shown| <= MAX_DOWNLOADS_SHOWN && DistinctGuids(shown) && download in shown
            && (forall d :: d in shown && d.guid != download.guid ==> d in rows)
            && (forall d :: d in shown && d.guid == download.guid ==> d == download)
  {
    hide Newest;
    var i := IndexOf(rows, download.guid);
    if i < |rows| { UpdatedRow(rows, download, i); } else { AppendedRow(rows, download); }
  }

  lemma {:induction false} NoneArriving(rows: seq<Download>)
    requires forall i :: 0 <= i < |rows| ==> rows[i].state != InProgress
    ensures StillArriving(rows) == []
  {
    if rows == [] {
    } else {
      NoneArriving(rows[1..]);
    }
  }

  /** A firing timer clears the card. */
  lemma FiringEmpties(p: Panel)
    requires Sound(p) && p.timer
    ensures Step(p, TimerFires).rows == []
  {
    NoneArriving(p.rows);
  }

  lemma StepSound(p: Panel, e: Event)
    requires Sound(p)
    ensures Sound(Step(p, e))
  {
    hide Shown, StillArriving;
    match e
    case Show(download) => ShownRows(p.rows, download);
    case TimerFires => if p.timer { FiringEmpties(p); }
    case _ =>
  }

  lemma StepUpToDate(p: Panel, e: Event, log: seq<Download>)
    requires Sound(p) && UpToDate(p, log)
    ensures UpToDate(Step(p, e), log + Accepted(p, e))
  {
    hide Shown;
    match e
    case Show(download) =>
      if p.tab == Some(download.tab) {
        ShownRows(p.rows, download);
        assert (log + [download])[..|log|] == log;
      } else {
        assert log + [] == log;
      }
    case _ => assert log + [] == log;
  }

  /** A step keeps all rows of the current tab if and only if it is not an attach that moves rows to another tab. */
  lemma StepTabIff(p: Panel, e: Event)
    requires Sound(p) && OfCurrentTab(p)
    ensures OfCurrentTab(Step(p, e)) <==> !(e.Attach? && p.tab != Some(e.to) && p.rows != [])
  {
    hide Shown;
    match e
    case Attach(tab) => if p.rows != [] { assert p.rows[0] in p.rows; }
    case Show(download) => ShownRows(p.rows, download);
    case _ =>
  }

  /** The attaches of a run all start from the unattached state, from the same tab, or from an empty card. */
  predicate AttachesCleanly(p: Panel, events: seq<Event>)
    decreases |events|
  {
    events == [] ||
    (&& (events[0].Attach? ==> p.tab == None || p.tab == Some(events[0].to) || p.rows == [])
     && AttachesCleanly(Step(p, events[0]), events[1..]))
  }

  lemma {:induction false} RunKeeps(p: Panel, events: seq<Event>, log: seq<Download>)
    requires Sound(p) && UpToDate(p, log)
    ensures Sound(Run(p, events)) && UpToDate(Run(p, events), log + Log(p, events))
    decreases |events|
  {
    hide Sound, UpToDate, Step, Accepted;
    if events == [] {
      assert log + [] == log;
    } else {
      var q, accepted := Step(p, events[0]), Accepted(p, events[0]);
      StepSound(p, events[0]);
      StepUpToDate(p, events[0], log);
      RunKeeps(q, events[1..], log + accepted);
      assert log + accepted + Log(q, events[1..]) == log + (accepted + Log(q, events[1..]));
    }
  }

  /** Every state of the run, from first to last, shows only rows of the current tab. */
  predicate AlwaysOfCurrentTab(p: Panel, events: seq<Event>)
    decreases |events|
  {
    OfCurrentTab(p) && (events == [] || AlwaysOfCurrentTab(Step(p, events[0]), events[1..]))
  }

  /** Every state of a run shows only rows of the current tab if and only if its attaches are clean. */
  lemma {:induction false} AlwaysIffClean(p: Panel, events: seq<Event>)
    requires Sound(p) && OfCurrentTab(p)
    ensures AlwaysOfCurrentTab(p, events) <==> AttachesCleanly(p, events)
    decreases |events|
  {
    hide Sound, Step;
    if events == [] {
    } else {
      StepSound(p, events[0]);
      StepTabIff(p, events[0]);
      assert p.rows != [] ==> p.rows[0] in p.rows;
      if OfCurrentTab(Step(p, events[0])) {
        AlwaysIffClean(Step(p, events[0]), events[1..]);
      }
    }
  }

  lemma {:induction false} AlwaysMeansLast(p: Panel, events: seq<Event>)
    requires AlwaysOfCurrentTab(p, events)
    ensures OfCurrentTab(Run(p, events))
    decreases |events|
  {
    if events == [] {
    } else {
      AlwaysMeansLast(Step(p, events[0]), events[1..]);
    }
  }

  /** Over every run the card is sound and each row is the latest announcement of its download. All rows of all its
      states belong to the current tab if and only if the attaches are clean. */
  lemma RunSound(events: seq<Event>)
    ensures Sound(Run(BLANK, events)) && UpToDate(Run(BLANK, events), Log(BLANK, events))
    ensures AlwaysOfCurrentTab(BLANK, events) <==> AttachesCleanly(BLANK, events)
    ensures AttachesCleanly(BLANK, events) ==> OfCurrentTab(Run(BLANK, events))
  {
    RunKeeps(BLANK, events, []);
    assert [] + Log(BLANK, events) == Log(BLANK, events);
    AlwaysIffClean(BLANK, events);
    if AttachesCleanly(BLANK, events) { AlwaysMeansLast(BLANK, events); }
  }

  /** Attaching to another tab over a shown download leaves a row of the tab that is gone. */
  lemma AttachKeepsForeignRow()
    ensures var p := Step(Step(BLANK, Attach("a")), Show(Download("g", "a", 0, InProgress)));
            OfCurrentTab(p) && !OfCurrentTab(Step(p, Attach("b")))
  {
    var d := Download("g", "a", 0, InProgress);
    assert Shown([], d) == [d] by { assert Newest([d]) == [d]; assert [] + [d] == [d]; }
    var p := Step(Step(BLANK, Attach("a")), Show(d));
    assert p.rows == [d] && p.rows[0] in p.rows;
  }

  // ----- what stays on the card -----

  /** A download of another tab changes nothing. One of this tab is shown at once, with every other row where it was:
      a known download in its row, a new one last, where only a full card loses its oldest row. */
  lemma ShowMeans(p: Panel, download: Download)
    requires Sound(p)
    ensures var q := Step(p, Show(download));
            if p.tab != Some(download.tab) then q == p
            else
              && q.tab == p.tab && q.attached == p.attached && download in q.rows
              && (forall k :: 0 <= k < |p.rows| && p.rows[k].guid == download.guid ==> q.rows == p.rows[k := download])
              && ((forall k :: 0 <= k < |p.rows| ==> p.rows[k].guid != download.guid) ==>
                    q.rows == p.rows[if |p.rows| < 4 then 0 else 1..] + [download])
  {
    hide Shown, AnyInProgress;
    ShownRows(p.rows, download);
  }

  /** The other operations: an attach moves to the tab and keeps the card, another tab or a dismissal clears it, and a
      timer clears what has ended. */
  lemma OthersMean(p: Panel, tab: Tab, target: Option<Tab>)
    ensures var q := Step(p, Attach(tab)); q.tab == Some(tab) && q.attached && q.rows == p.rows && q.timer == p.timer
    ensures Step(p, SetTab(target)).tab == target
    ensures p.tab == target ==> Step(p, SetTab(target)) == p
    ensures p.tab != target ==> Step(p, SetTab(target)).rows == []
    ensures Step(p, Dismiss).rows == [] && Step(p, Dismiss).tab == p.tab
    ensures forall d :: d in Step(p, TimerFires).rows <==> d in p.rows && (p.timer ==> d.state == InProgress)
  {
  }

  predicate IsShown(p: Panel, guid: string) { IndexOf(p.rows, guid) < |p.rows| }

  /** How many rows have come in behind the one with the guid. */
  function Younger(p: Panel, guid: string): int { |p.rows| - 1 - IndexOf(p.rows, guid) }

  lemma IndexUnique(rows: seq<Download>, k: nat)
    requires DistinctGuids(rows) && k < |rows|
    ensures IndexOf(rows, rows[k].guid) == k
  {
  }

  /** The step takes rows off the card: a dismissal, another tab, or a firing timer. */
  predicate Clears(p: Panel, e: Event) {
    e.Dismiss? || (e.SetTab? && p.tab != e.target) || (e.TimerFires? && p.timer)
  }

  /** The step puts a download on the card that is not on it. */
  predicate Appends(p: Panel, e: Event) {
    e.Show? && p.tab == Some(e.download.tab) && !IsShown(p, e.download.guid)
  }

  /** A step that clears nothing keeps a shown download, one row older for each new one, unless it is the last of four
      and a new one comes. */
  lemma StepKeepsRow(p: Panel, e: Event, guid: string)
    requires Sound(p) && IsShown(p, guid) && !Clears(p, e)
    ensures var q := Step(p, e);
            if !Appends(p, e) then IsShown(q, guid) && Younger(q, guid) == Younger(p, guid)
            else if Younger(p, guid) < 3 then IsShown(q, guid) && Younger(q, guid) == Younger(p, guid) + 1
            else !IsShown(q, guid)
  {
    hide Shown, AnyInProgress, StillArriving;
    if e.Show? && p.tab == Some(e.download.tab) {
      var q, i, k := Step(p, e), IndexOf(p.rows, guid), IndexOf(p.rows, e.download.guid);
      ShowMeans(p, e.download);
      StepSound(p, e);
      if k < |p.rows| {
        assert q.rows == p.rows[k := e.download];
        IndexUnique(q.rows, i);
      } else if |p.rows| < 4 {
        assert q.rows[i] == p.rows[i];
        IndexUnique(q.rows, i);
      } else if i > 0 {
        assert q.rows[i - 1] == p.rows[i];
        IndexUnique(q.rows, i - 1);
      }
    }
  }

  /** The run never clears the card. */
  predicate NeverClears(p: Panel, events: seq<Event>)
    decreases |events|
  {
    events == [] || (!Clears(p, events[0]) && NeverClears(Step(p, events[0]), events[1..]))
  }

  /** How many new downloads come onto the card during the run. */
  function Arrivals(p: Panel, events: seq<Event>): nat
    decreases |events|
  {
    if events == [] then 0
    else (if Appends(p, events[0]) then 1 else 0) + Arrivals(Step(p, events[0]), events[1..])
  }

  /** Once shown, a download stays until a dismissal, another tab, a firing timer, or four newer downloads. */
  lemma {:induction false} StaysShown(p: Panel, events: seq<Event>, guid: string)
    requires Sound(p) && IsShown(p, guid) && NeverClears(p, events)
    requires Younger(p, guid) + Arrivals(p, events) < MAX_DOWNLOADS_SHOWN
    ensures IsShown(Run(p, events), guid)
    ensures Younger(Run(p, events), guid) == Younger(p, guid) + Arrivals(p, events)
    decreases |events|
  {
    hide Step, Sound, IsShown, Younger, Appends, Clears;
    if events == [] {
    } else {
      StepSound(p, events[0]);
      StepKeepsRow(p, events[0], guid);
      StaysShown(Step(p, events[0]), events[1..], guid);
    }
  }

  predicate Announces(events: seq<Event>, guid: string) {
    exists i :: 0 <= i < |events| && events[i].Show? && events[i].download.guid == guid
  }

  lemma StaysAwayStep(p: Panel, e: Event, guid: string)
    requires Sound(p) && !IsShown(p, guid) && !(e.Show? && e.download.guid == guid)
    ensures !IsShown(Step(p, e), guid)
  {
    hide Shown, AnyInProgress;
    if e.Show? { ShownRows(p.rows, e.download); }
    ShownMeansRow(p, guid);
    ShownMeansRow(Step(p, e), guid);
  }

  lemma ShownMeansRow(p: Panel, guid: string)
    ensures IsShown(p, guid) <==> exists d :: d in p.rows && d.guid == guid
  {
    if IsShown(p, guid) { assert p.rows[IndexOf(p.rows, guid)] in p.rows; }
  }

  lemma {:induction false} StaysAway(p: Panel, events: seq<Event>, guid: string)
    requires Sound(p) && !IsShown(p, guid) && !Announces(events, guid)
    ensures !IsShown(Run(p, events), guid)
    decreases |events|
  {
    hide Step, Sound, IsShown;
    if events == [] {
    } else {
      NotAnnouncedLater(events, guid);
      StepSound(p, events[0]);
      StaysAwayStep(p, events[0], guid);
      StaysAway(Step(p, events[0]), events[1..], guid);
    }
  }

  lemma NotAnnouncedLater(events: seq<Event>, guid: string)
    requires events != [] && !Announces(events, guid)
    ensures !Announces(events[1..], guid) && !(events[0].Show? && events[0].download.guid == guid)
  {
    assert forall i :: 0 <= i < |events[1..]| ==> events[1..][i] == events[i + 1];
  }

  /** Over a run that clears nothing and does not announce it again, a shown download is still shown if and only if
      fewer than four downloads are newer. */
  lemma {:induction false} ShownIff(p: Panel, events: seq<Event>, guid: string)
    requires Sound(p) && IsShown(p, guid) && NeverClears(p, events) && !Announces(events, guid)
    ensures IsShown(Run(p, events), guid) <==> Younger(p, guid) + Arrivals(p, events) < MAX_DOWNLOADS_SHOWN
    decreases |events|
  {
    hide Step, Sound, IsShown, Younger, Appends, Clears;
    YoungerBound(p, guid);
    if events == [] {
    } else {
      NotAnnouncedLater(events, guid);
      StepSound(p, events[0]);
      StepKeepsRow(p, events[0], guid);
      if IsShown(Step(p, events[0]), guid) {
        ShownIff(Step(p, events[0]), events[1..], guid);
      } else {
        StaysAway(Step(p, events[0]), events[1..], guid);
      }
    }
  }

  lemma YoungerBound(p: Panel, guid: string)
    requires Sound(p) && IsShown(p, guid)
    ensures 0 <= Younger(p, guid) < MAX_DOWNLOADS_SHOWN
  {
  }
}
