/** The directory picker: browsing, answers that arrive later, and confirmation. */
module Picker {
  import opened Basics
  import opened Listing

  datatype Selection = PickDirectory | PickFile

  datatype Phase = Loading | Ready | Error(message: string)

  /** A running browse, named by the order of the calls. Replacing it cancels it. */
  datatype Task = Task(ticket: nat, target: Option<Path>)

  datatype DirectoryListing = DirectoryListing(path: Path, parent: Option<Path>, entries: seq<Entry>, roots: seq<Path>)

  datatype RemoteEntry = RemoteEntry(name: string, path: Path)

  /** What the source answers: an error, the raw entries of a local directory, or an authority's listing. */
  datatype Reply = Failed(error: string)
                 | LocalRead(raw: seq<RawEntry>)
                 | RemoteListing(path: Path, parent: Option<Path>, entries: seq<RemoteEntry>, roots: seq<Path>)

  /** Text and path operations of the platform. */
  datatype Platform = Platform(lower: string -> string, parentOf: Path -> Option<Path>)

  datatype Dialog = Dialog(
    selection: Selection, authority: bool, home: Option<Path>,
    selected: Option<Path>, browseRoot: Option<Path>, parent: Option<Path>, retryTarget: Option<Path>,
    roots: seq<Path>, entries: seq<Entry>, phase: Phase, task: Option<Task>, issued: nat)

  /** A dialog and the path it hands to the host, if the operation confirms one. */
  datatype Outcome = Outcome(dialog: Dialog, pick: Option<Path>)

  // ----- browsing -----

  /** A local browse always names a directory; an authority may be asked for its first root. */
  function Target(d: Dialog, target: Option<Path>): Option<Path> {
    if d.authority || target.Some? then target else Some(if d.home.Some? then d.home.value else "/")
  }

  function Browsed(d: Dialog, target: Option<Path>): Dialog {
    d.(retryTarget := Target(d, target), phase := Loading, entries := [],
       task := Some(Task(d.issued, Target(d, target))), issued := d.issued + 1)
  }

  /** The source's answer as a listing. A folder picker lists no files. */
  function ListingOf(d: Dialog, target: Option<Path>, reply: Reply, os: Platform): Option<DirectoryListing> {
    match reply
    case Failed(_) => None
    case LocalRead(raw) =>
      var path := if target.Some? then target.value else "";
      Some(DirectoryListing(path, os.parentOf(path), Sorted(Visible(raw, d.selection == PickFile), os.lower), []))
    case RemoteListing(path, parent, entries, roots) =>
      Some(DirectoryListing(path, parent,
             seq(|entries|, i requires 0 <= i < |entries| => Entry(entries[i].name, entries[i].path, true)), roots))
  }

  /** The reply comes from the source the dialog browses. */
  predicate FromSource(d: Dialog, reply: Reply) {
    reply.Failed? || (d.authority <==> reply.RemoteListing?)
  }

  /** The answer to the browse with this ticket arrives; a cancelled browse answers nobody. */
  predicate Awaited(d: Dialog, ticket: nat, reply: Reply) {
    d.task.Some? && d.task.value.ticket == ticket && FromSource(d, reply)
  }

  function Completed(d: Dialog, ticket: nat, reply: Reply, os: Platform): Dialog {
    if !Awaited(d, ticket, reply) then d
    else match ListingOf(d, d.task.value.target, reply, os)
      case Some(listing) =>
        d.(browseRoot := Some(listing.path),
           selected := if d.selection == PickDirectory then Some(listing.path) else None,
           parent := listing.parent, entries := listing.entries,
           roots := if listing.roots != [] then listing.roots else d.roots,
           phase := Ready, task := None)
      case None =>
        d.(retryTarget := if d.authority && d.roots == [] then None else d.retryTarget,
           phase := Error(if reply.Failed? then reply.error else ""), task := None)
  }

  // ----- choosing -----

  /** `confirm`: only a ready dialog with something selected submits, and a file picker only a file. */
  function Confirmed(d: Dialog, isFile: bool): Outcome {
    if d.phase != Ready || d.selected.None? || (d.selection == PickFile && !isFile) then Outcome(d, None)
    else Outcome(d, d.selected)
  }

  /** The typed query as a path: `canonical` is its resolved spelling. */
  datatype Query = Query(text: Path, canonical: Path, isDir: bool, isFile: bool)

  function QueryOpened(d: Dialog, query: Query): Outcome {
    if query.text == "" then Outcome(d, None)
    else if d.authority then Outcome(Browsed(d, Some(query.text)), None)
    else if query.isDir then Outcome(Browsed(d, Some(query.canonical)), None)
    else if d.selection == PickFile && query.isFile then
      Confirmed(d.(selected := Some(query.canonical)), query.isFile)
    else Outcome(d, None)
  }

  /** Taking a row: descend into a folder, confirm a file. */
  function RowTaken(d: Dialog, row: nat, isFile: bool): Outcome
    requires row < |d.entries|
  {
    if d.entries[row].isDir then Outcome(Browsed(d, Some(d.entries[row].path)), None)
    else Confirmed(d.(selected := Some(d.entries[row].path)), isFile)
  }

  /** Enter in the search field: take the highlighted row, else follow the query. */
  function Activated(d: Dialog, row: nat, isFile: bool, query: Query): Outcome {
    if row < |d.entries| then RowTaken(d, row, isFile) else QueryOpened(d, query)
  }

  /** A click on a row: descend into a folder, select a file, and take it on a double click. */
  function Clicked(d: Dialog, row: nat, double: bool, isFile: bool): Outcome {
    if row >= |d.entries| then Outcome(d, None)
    else if d.entries[row].isDir || double then RowTaken(d, row, isFile)
    else Outcome(d.(selected := Some(d.entries[row].path)), None)
  }

  class DirectoryPickerDialog {
    const selection: Selection
    const authority: bool
    const home: Option<Path>
    const os: Platform
    var selected: Option<Path>
    var browseRoot: Option<Path>
    var parent: Option<Path>
    var retryTarget: Option<Path>
    var roots: seq<Path>
    var entries: seq<Entry>
    var phase: Phase
    var browseTask: Option<Task>
    var issued: nat

    ghost function Value(): Dialog
      reads this
    {
      Dialog(selection, authority, home, selected, browseRoot, parent, retryTarget, roots, entries, phase,
             browseTask, issued)
    }

    constructor (selection: Selection, authority: bool, home: Option<Path>, os: Platform, initial: Option<Path>)
      ensures Value() == Opened(selection, authority, home, initial) && this.os == os
    {
      this.selection, this.authority, this.home, this.os := selection, authority, home, os;
      selected, browseRoot, parent, retryTarget := None, None, None, None;
      roots, entries, phase, browseTask, issued := [], [], Loading, None, 0;
      new;
      Browse(initial);
    }

    method Browse(target: Option<Path>)
      modifies this
      ensures Value() == Browsed(old(Value()), target)
    {
      var resolved := target;
      if !authority && target.None? {
        resolved := Some(if home.Some? then home.value else "/");
      }
      retryTarget := resolved;
      phase := Loading;
      entries := [];
      browseTask := Some(Task(issued, resolved));
      issued := issued + 1;
    }

    /** The continuation of the browse: runs when its answer arrives, unless the browse was replaced. */
    method BrowseAnswered(ticket: nat, reply: Reply)
      modifies this
      ensures Value() == Completed(old(Value()), ticket, reply, os)
    {
      if browseTask.None? || browseTask.value.ticket != ticket {
        return;
      }
      if !(reply.Failed? || (authority <==> reply.RemoteListing?)) {
        return;
      }
      var listing := ListSource(browseTask.value.target, reply);
      browseTask := None;
      if listing.Some? {
        browseRoot := Some(listing.value.path);
        selected := if selection == PickDirectory then Some(listing.value.path) else None;
        parent := listing.value.parent;
        if listing.value.roots != [] {
          roots := listing.value.roots;
        }
        entries := listing.value.entries;
        phase := Ready;
      } else {
        if authority && roots == [] {
          retryTarget := None;
        }
        phase := Error(if reply.Failed? then reply.error else "");
      }
    }

    method ListSource(target: Option<Path>, reply: Reply) returns (listing: Option<DirectoryListing>)
      ensures listing == ListingOf(Value(), target, reply, os)
    {
      match reply
      case Failed(_) => return None;
      case LocalRead(raw) =>
        var path := if target.Some? then target.value else "";
        var rows := ListEntries(raw, selection == PickFile, os.lower);
        return Some(DirectoryListing(path, os.parentOf(path), rows, []));
      case RemoteListing(path, parent, answered, roots) =>
        var rows := seq(|answered|, i requires 0 <= i < |answered| => Entry(answered[i].name, answered[i].path, true));
        return Some(DirectoryListing(path, parent, rows, roots));
    }

    method Confirm(isFile: bool) returns (pick: Option<Path>)
      ensures Outcome(Value(), pick) == Confirmed(Value(), isFile)
    {
      if phase != Ready {
        return None;
      }
      if selected.None? || (selection == PickFile && !isFile) {
        return None;
      }
      return selected;
    }

    method ActivateFocusedRow(row: nat, isFile: bool, query: Query) returns (pick: Option<Path>)
      modifies this
      ensures Outcome(Value(), pick) == Activated(old(Value()), row, isFile, query)
    {
      if row >= |entries| {
        pick := OpenQueryPath(query);
        return;
      }
      var entry := entries[row];
      if entry.isDir {
        Browse(Some(entry.path));
        return None;
      }
      selected := Some(entry.path);
      pick := Confirm(isFile);
    }

    method ClickRow(row: nat, double: bool, isFile: bool) returns (pick: Option<Path>)
      modifies this
      ensures Outcome(Value(), pick) == Clicked(old(Value()), row, double, isFile)
    {
      if row >= |entries| {
        return None;
      }
      var entry := entries[row];
      if entry.isDir {
        Browse(Some(entry.path));
        return None;
      }
      selected := Some(entry.path);
      if double {
        pick := Confirm(isFile);
      } else {
        pick := None;
      }
    }

    method OpenQueryPath(query: Query) returns (pick: Option<Path>)
      modifies this
      ensures Outcome(Value(), pick) == QueryOpened(old(Value()), query)
    {
      if query.text == "" {
        return None;
      }
      if authority {
        Browse(Some(query.text));
        return None;
      }
      if query.isDir {
        Browse(Some(query.canonical));
        return None;
      }
      if selection == PickFile && query.isFile {
        selected := Some(query.canonical);
        pick := Confirm(query.isFile);
        return;
      }
      return None;
    }

    method GoUp()
      modifies this
      ensures Value() == if old(parent).None? then old(Value()) else Browsed(old(Value()), old(parent))
    {
      if parent.Some? {
        Browse(parent);
      }
    }
  }

  // ----- every run -----

  function Opened(selection: Selection, authority: bool, home: Option<Path>, initial: Option<Path>): Dialog {
    Browsed(Dialog(selection, authority, home, None, None, None, None, [], [], Loading, None, 0), initial)
  }

  datatype Event = Browse(target: Option<Path>) | GoUp | Retry
                 | Answer(ticket: nat, reply: Reply)
                 | Confirm(isFile: bool)
                 | Activate(row: nat, isFile: bool, query: Query)
                 | Click(row: nat, double: bool, isFile: bool)
                 | OpenQuery(query: Query)

  function Step(d: Dialog, e: Event, os: Platform): Outcome {
    match e
    case Browse(target) => Outcome(Browsed(d, target), None)
    case GoUp => Outcome(if d.parent.None? then d else Browsed(d, d.parent), None)
    case Retry => Outcome(Browsed(d, d.retryTarget), None)
    case Answer(ticket, reply) => Outcome(Completed(d, ticket, reply, os), None)
    case Confirm(isFile) => Confirmed(d, isFile)
    case Activate(row, isFile, query) => Activated(d, row, isFile, query)
    case Click(row, double, isFile) => Clicked(d, row, double, isFile)
    case OpenQuery(query) => QueryOpened(d, query)
  }

  /** A confirmed path, and the last browse call made before it. */
  datatype Pick = Pick(path: Path, ticket: nat)

  /** A run so far: the dialog, the directory each browse call asked for, the listing each answered call got, and the
      paths handed to the host. */
  datatype Run = Run(dialog: Dialog, asked: seq<Option<Path>>, answers: map<nat, DirectoryListing>, picks: seq<Pick>)

  function Started(d: Dialog): Run
    requires d.task.Some?
  {
    Run(d, [d.task.value.target], map[], [])
  }

  function Continue(r: Run, e: Event, os: Platform): Run {
    var o := Step(r.dialog, e, os);
    Run(o.dialog,
        if o.dialog.issued > r.dialog.issued && o.dialog.task.Some?
          then r.asked + [o.dialog.task.value.target] else r.asked,
        if e.Answer? && Awaited(r.dialog, e.ticket, e.reply)
            && ListingOf(r.dialog, r.dialog.task.value.target, e.reply, os).Some?
          then r.answers[e.ticket := ListingOf(r.dialog, r.dialog.task.value.target, e.reply, os).value] else r.answers,
        if o.pick.Some? && o.dialog.issued > 0 then r.picks + [Pick(o.pick.value, o.dialog.issued - 1)] else r.picks)
  }

  function Runs(r: Run, events: seq<Event>, os: Platform): Run
    decreases |events|
  {
    if events == [] then r else Runs(Continue(r, events[0], os), events[1..], os)
  }

  predicate AllFolders(entries: seq<Entry>) { forall i :: 0 <= i < |entries| ==> entries[i].isDir }

  /** A ready dialog shows one listing, the answer to the latest browse call; a folder picker has that directory
      selected, and what it shows are folders. */
  ghost predicate ShowsLatest(r: Run) {
    var d := r.dialog;
    d.phase.Ready? ==>
      && d.issued > 0 && (d.issued - 1) in r.answers
      && var listing := r.answers[d.issued - 1];
         && d.browseRoot == Some(listing.path) && d.parent == listing.parent && d.entries == listing.entries
         && (d.selection == PickDirectory ==> d.selected == Some(listing.path))
  }

  ghost predicate WellKept(r: Run) {
    var d := r.dialog;
    && d.issued > 0 && |r.asked| == d.issued
    && (d.task.Some? <==> d.phase.Loading?)
    && (d.task.Some? ==> d.task.value == Task(d.issued - 1, r.asked[d.issued - 1]) && d.task.value.ticket !in r.answers)
    && (d.task.Some? ==> d.retryTarget == d.task.value.target)
    && (!d.phase.Ready? ==> d.entries == [])
    && (forall ticket :: ticket in r.answers ==> ticket < d.issued)
  }

  /** Each answer is of the directory its call asked for, and a folder picker's answers hold folders only. */
  ghost predicate AnswersFit(r: Run) {
    forall ticket :: ticket in r.answers && ticket < |r.asked| ==>
      && (r.dialog.selection == PickDirectory ==> AllFolders(r.answers[ticket].entries))
      && (!r.dialog.authority && r.asked[ticket].Some? ==> r.answers[ticket].path == r.asked[ticket].value)
  }

  /** Every path a folder picker hands to the host is the directory it was showing: the answer to its latest browse. */
  ghost predicate PicksShown(r: Run) {
    r.dialog.selection == PickDirectory ==>
      forall i :: 0 <= i < |r.picks| ==>
        r.picks[i].ticket in r.answers && r.picks[i].path == r.answers[r.picks[i].ticket].path
  }

  ghost predicate Faithful(r: Run) { WellKept(r) && ShowsLatest(r) && AnswersFit(r) && PicksShown(r) }

  lemma ListingFits(d: Dialog, target: Option<Path>, reply: Reply, os: Platform)
    requires FromSource(d, reply) && ListingOf(d, target, reply, os).Some?
    ensures var listing := ListingOf(d, target, reply, os).value;
            && (d.selection == PickDirectory ==> AllFolders(listing.entries))
            && (!d.authority && target.Some? ==> listing.path == target.value)
  {
    if reply.LocalRead? {
      ListingShows(reply.raw, d.selection == PickFile, os.lower);
      var rows := Sorted(Visible(reply.raw, d.selection == PickFile), os.lower);
      assert forall i :: 0 <= i < |rows| ==> rows[i] in rows;
    }
  }

  lemma BrowseFaithful(r: Run, target: Option<Path>)
    requires Faithful(r)
    ensures var d := Browsed(r.dialog, target);
            Faithful(r.(dialog := d, asked := r.asked + [d.task.value.target]))
  {
    var d := Browsed(r.dialog, target);
    var asked := r.asked + [d.task.value.target];
    assert asked[d.issued - 1] == d.task.value.target;
    assert forall ticket :: ticket in r.answers ==> asked[ticket] == r.asked[ticket];
  }

  lemma AnswerFaithful(r: Run, ticket: nat, reply: Reply, os: Platform)
    requires Faithful(r)
    ensures Faithful(Continue(r, Answer(ticket, reply), os))
  {
    hide ListingOf, AllFolders;
    var d := r.dialog;
    if Awaited(d, ticket, reply) && ListingOf(d, d.task.value.target, reply, os).Some? {
      ListingFits(d, d.task.value.target, reply, os);
    }
  }

  /** Selecting a path in a file picker, or confirming, keeps the run faithful. */
  lemma ChoiceFaithful(r: Run, o: Outcome)
    requires Faithful(r)
    requires || o.dialog == r.dialog
             || (r.dialog.selection == PickFile && o.dialog == r.dialog.(selected := o.dialog.selected))
    requires o.pick.Some? ==> o.dialog.phase == Ready && o.pick == o.dialog.selected
    ensures Faithful(Run(o.dialog, r.asked, r.answers,
                         if o.pick.Some? then r.picks + [Pick(o.pick.value, o.dialog.issued - 1)] else r.picks))
  {
  }

  lemma RowIsFolder(r: Run, row: nat)
    requires Faithful(r) && row < |r.dialog.entries| && r.dialog.selection == PickDirectory
    ensures r.dialog.entries[row].isDir
  {
  }

  lemma StepFaithful(r: Run, e: Event, os: Platform)
    requires Faithful(r)
    ensures Faithful(Continue(r, e, os))
  {
    hide Faithful, Completed, Awaited, ListingOf;
    EachBrowseAsked(r);
    var d, o := r.dialog, Step(r.dialog, e, os);
    if e.Answer? {
      AnswerFaithful(r, e.ticket, e.reply, os);
    } else {
      if (e.Activate? || e.Click?) && e.row < |d.entries| && d.selection == PickDirectory { RowIsFolder(r, e.row); }
      if o.dialog.issued > d.issued {
        BrowseFaithful(r, match e
          case Browse(target) => target
          case GoUp => d.parent
          case Retry => d.retryTarget
          case Activate(row, _, query) =>
            if row < |d.entries| then Some(d.entries[row].path) else Some(Followed(d, query))
          case Click(row, _, _) => Some(d.entries[row].path)
          case OpenQuery(query) => Some(Followed(d, query))
          case _ => None);
      } else {
        ChoiceFaithful(r, o);
      }
    }
  }

  /** The path a browsing query leads to. */
  function Followed(d: Dialog, query: Query): Path { if d.authority then query.text else query.canonical }

  lemma EachBrowseAsked(r: Run)
    requires Faithful(r)
    ensures |r.asked| == r.dialog.issued > 0
  {
  }

  lemma {:induction false} RunFaithful(r: Run, events: seq<Event>, os: Platform)
    requires Faithful(r)
    ensures Faithful(Runs(r, events, os))
    decreases |events|
  {
    hide Faithful, Continue;
    if events == [] {
    } else {
      StepFaithful(r, events[0], os);
      RunFaithful(Continue(r, events[0], os), events[1..], os);
    }
  }

  /** In every reachable state of every run the dialog is faithful to the latest browse. */
  lemma EveryRunFaithful(selection: Selection, authority: bool, home: Option<Path>, initial: Option<Path>,
                         events: seq<Event>, os: Platform)
    ensures Faithful(Runs(Started(Opened(selection, authority, home, initial)), events, os))
  {
    RunFaithful(Started(Opened(selection, authority, home, initial)), events, os);
  }

  /** A local folder picker can only ever hand out a directory that was asked for, the last one before the pick. */
  lemma LocalPickWasAsked(home: Option<Path>, initial: Option<Path>, events: seq<Event>, os: Platform, i: nat)
    requires i < |Runs(Started(Opened(PickDirectory, false, home, initial)), events, os).picks|
    ensures var r := Runs(Started(Opened(PickDirectory, false, home, initial)), events, os);
            r.picks[i].ticket < |r.asked| && r.asked[r.picks[i].ticket] == Some(r.picks[i].path)
  {
    var s := Started(Opened(PickDirectory, false, home, initial));
    EveryRunFaithful(PickDirectory, false, home, initial, events, os);
    LocalAsksNamed(s, events, os);
  }

  /** A local dialog never browses without a directory, and its kind never changes. */
  lemma {:induction false} LocalAsksNamed(r: Run, events: seq<Event>, os: Platform)
    requires !r.dialog.authority && forall i :: 0 <= i < |r.asked| ==> r.asked[i].Some?
    ensures var q := Runs(r, events, os);
            && q.dialog.selection == r.dialog.selection && !q.dialog.authority
            && forall i :: 0 <= i < |q.asked| ==> q.asked[i].Some?
    decreases |events|
  {
    if events == [] {
    } else {
      LocalAskNamed(r, events[0], os);
      LocalAsksNamed(Continue(r, events[0], os), events[1..], os);
    }
  }

  lemma LocalAskNamed(r: Run, e: Event, os: Platform)
    requires !r.dialog.authority && forall i :: 0 <= i < |r.asked| ==> r.asked[i].Some?
    ensures var q := Continue(r, e, os);
            && q.dialog.selection == r.dialog.selection && !q.dialog.authority
            && forall i :: 0 <= i < |q.asked| ==> q.asked[i].Some?
  {
    hide ListingOf;
  }
}
