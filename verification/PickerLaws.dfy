/** What the picker does: every operation in a reachable state, from the browse call it makes to the path it submits. */
module PickerLaws {
  import opened Basics
  import opened Listing
  import opened Picker

  // ----- submitting -----

  /** A folder picker that is ready submits the directory it shows, the answer to its latest browse; otherwise a confirm
      submits nothing. */
  lemma FolderConfirmed(r: Run, isFile: bool, os: Platform)
    requires Faithful(r) && r.dialog.selection == PickDirectory
    ensures var q := Continue(r, Event.Confirm(isFile), os);
            && q.dialog == r.dialog && q.asked == r.asked && q.answers == r.answers
            && if r.dialog.phase == Ready then
                 q.picks == r.picks + [Pick(r.answers[r.dialog.issued - 1].path, r.dialog.issued - 1)]
               else q.picks == r.picks
  {
  }

  /** A file picker submits what is selected if and only if it is ready and that is a file. */
  lemma FileConfirmed(r: Run, isFile: bool, os: Platform)
    requires Faithful(r) && r.dialog.selection == PickFile
    ensures var q := Continue(r, Event.Confirm(isFile), os);
            && q.dialog == r.dialog && q.asked == r.asked
            && q.picks == r.picks +
                 if r.dialog.phase == Ready && r.dialog.selected.Some? && isFile
                 then [Pick(r.dialog.selected.value, r.dialog.issued - 1)] else []
  {
  }

  /** A file row is selected by a click; a double click or Enter submits it if and only if it is a file. */
  lemma FileRowTaken(r: Run, row: nat, isFile: bool, query: Query, os: Platform)
    requires Faithful(r) && row < |r.dialog.entries| && !r.dialog.entries[row].isDir
    ensures var path := r.dialog.entries[row].path;
            var click := Continue(r, Click(row, false, isFile), os);
            var double := Continue(r, Click(row, true, isFile), os);
            var enter := Continue(r, Activate(row, isFile, query), os);
            && r.dialog.selection == PickFile && r.dialog.phase == Ready
            && click.dialog.selected == Some(path) && click.picks == r.picks
            && double == enter && enter.dialog.selected == Some(path)
            && enter.picks == r.picks + if isFile then [Pick(path, r.dialog.issued - 1)] else []
  {
    if r.dialog.selection == PickDirectory { RowIsFolder(r, row); }
  }

  /** A typed file submits if and only if files are picked here and the dialog is ready. */
  lemma QueryFileTaken(r: Run, query: Query, os: Platform)
    requires Faithful(r) && !r.dialog.authority && query.text != "" && !query.isDir && query.isFile
    ensures var q := Continue(r, OpenQuery(query), os);
            q.asked == r.asked && q.picks == r.picks +
              if r.dialog.selection == PickFile && r.dialog.phase == Ready
              then [Pick(query.canonical, r.dialog.issued - 1)] else []
  {
  }

  // ----- browsing -----

  /** `q` is `r` after one more browse call, for `target`: the rows are gone and the answer is awaited. */
  ghost predicate Asks(r: Run, q: Run, target: Option<Path>) {
    && q.asked == r.asked + [target] && q.picks == r.picks && q.answers == r.answers
    && q.dialog.phase == Loading && q.dialog.entries == [] && q.dialog.issued == r.dialog.issued + 1
    && q.dialog.task == Some(Task(r.dialog.issued, target))
  }

  /** A browse asks for its target; a local one without a target asks for the home directory, or the root. */
  lemma BrowseAsks(r: Run, target: Option<Path>, os: Platform)
    ensures Asks(r, Continue(r, Event.Browse(target), os),
                 if r.dialog.authority || target.Some? then target
                 else if r.dialog.home.Some? then r.dialog.home else Some("/"))
  {
  }

  /** A folder row, by click or Enter, asks for that folder; "Up" asks for the parent the source reported. */
  lemma FolderRowAsks(r: Run, row: nat, double: bool, isFile: bool, query: Query, os: Platform)
    requires row < |r.dialog.entries| && r.dialog.entries[row].isDir
    ensures Asks(r, Continue(r, Click(row, double, isFile), os), Some(r.dialog.entries[row].path))
    ensures Asks(r, Continue(r, Activate(row, isFile, query), os), Some(r.dialog.entries[row].path))
  {
  }

  lemma UpAsks(r: Run, os: Platform)
    ensures r.dialog.parent.Some? ==> Asks(r, Continue(r, Event.GoUp, os), r.dialog.parent)
    ensures r.dialog.parent.None? ==> Continue(r, Event.GoUp, os) == r
  {
  }

  /** A typed directory is asked for, on an authority whatever it is; Enter without a row does the same. */
  lemma QueryAsks(r: Run, query: Query, row: nat, isFile: bool, os: Platform)
    requires query.text != "" && (r.dialog.authority || query.isDir)
    ensures Asks(r, Continue(r, OpenQuery(query), os), Some(if r.dialog.authority then query.text else query.canonical))
    ensures row >= |r.dialog.entries| ==>
              Continue(r, Activate(row, isFile, query), os) == Continue(r, OpenQuery(query), os)
  {
  }

  // ----- answers -----

  /** A local directory that answers is shown: its path, its parent, and exactly its listing. */
  lemma LocalAnswerShown(r: Run, raw: seq<RawEntry>, os: Platform)
    requires Faithful(r) && r.dialog.task.Some? && !r.dialog.authority && r.asked[r.dialog.issued - 1].Some?
    ensures var ticket := r.dialog.issued - 1;
            var path, files := r.asked[ticket].value, r.dialog.selection == PickFile;
            var d := Continue(r, Answer(ticket, LocalRead(raw)), os).dialog;
            && d.phase == Ready && d.task == None && d.browseRoot == Some(path) && d.parent == os.parentOf(path)
            && d.selected == (if files then None else Some(path)) && d.roots == r.dialog.roots
            && d.entries == Sorted(Visible(raw, files), os.lower)
  {
  }

  /** An authority's listing is shown as it is, all of it folders; its roots replace the known ones if it names any. */
  lemma RemoteAnswerShown(r: Run, reply: Reply, os: Platform)
    requires Faithful(r) && r.dialog.task.Some? && r.dialog.authority && reply.RemoteListing?
    ensures var d := Continue(r, Answer(r.dialog.issued - 1, reply), os).dialog;
            && d.phase == Ready && d.task == None && d.browseRoot == Some(reply.path) && d.parent == reply.parent
            && d.selected == (if r.dialog.selection == PickFile then None else Some(reply.path))
            && d.roots == (if reply.roots == [] then r.dialog.roots else reply.roots)
            && |d.entries| == |reply.entries|
            && forall i :: 0 <= i < |d.entries| ==>
                 d.entries[i] == Entry(reply.entries[i].name, reply.entries[i].path, true)
  {
  }

  /** A failure is shown, and a retry asks for the same directory again, except of an authority that has never named its
      roots, which is asked for its first one. */
  lemma FailureRetried(r: Run, error: string, os: Platform)
    requires Faithful(r) && r.dialog.task.Some?
    ensures var failed := Continue(r, Answer(r.dialog.issued - 1, Failed(error)), os);
            && failed.dialog.phase == Error(error) && failed.dialog.entries == [] && failed.answers == r.answers
            && (r.dialog.authority || r.asked[r.dialog.issued - 1].Some? ==>
                  Asks(failed, Continue(failed, Retry, os),
                       if r.dialog.authority && r.dialog.roots == [] then None else r.asked[r.dialog.issued - 1]))
  {
  }

  /** Only the latest browse can be answered: the answer of any other, and a second answer, change nothing. */
  lemma StaleAnswerIgnored(r: Run, ticket: nat, reply: Reply, os: Platform)
    requires Faithful(r) && (ticket != r.dialog.issued - 1 || r.dialog.phase != Loading)
    ensures Continue(r, Answer(ticket, reply), os) == r
  {
  }

  // ----- from browse to pick -----

  lemma {:induction false} LateAnswersIgnored(r: Run, late: seq<Event>, os: Platform)
    requires Faithful(r) && forall e :: e in late ==> e.Answer? && e.ticket != r.dialog.issued - 1
    ensures Runs(r, late, os) == r
    decreases |late|
  {
    hide Faithful, Continue;
    if late == [] {
    } else {
      assert late[0] in late;
      StaleAnswerIgnored(r, late[0].ticket, late[0].reply, os);
      LateAnswersIgnored(r, late[1..], os);
    }
  }

  /** Browsing a local directory in any reachable state and confirming once it has answered submits that directory,
      however many answers of other browses come in between. A file picker so submits the file of the listing that is
      double clicked. */
  lemma BrowsedThenPicked(r: Run, path: Path, late: seq<Event>, raw: seq<RawEntry>, row: nat, os: Platform)
    requires Faithful(r) && !r.dialog.authority
    requires forall e :: e in late ==> e.Answer? && e.ticket != r.dialog.issued
    ensures var waiting := Runs(Continue(r, Event.Browse(Some(path)), os), late, os);
            var shown := Continue(waiting, Answer(r.dialog.issued, LocalRead(raw)), os);
            var files := Sorted(Visible(raw, true), os.lower);
            && (r.dialog.selection == PickDirectory ==>
                  Continue(shown, Event.Confirm(false), os).picks == r.picks + [Pick(path, r.dialog.issued)])
            && (r.dialog.selection == PickFile && row < |files| && !files[row].isDir ==>
                  Continue(shown, Click(row, true, true), os).picks ==
                  r.picks + [Pick(files[row].path, r.dialog.issued)])
  {
    hide Faithful, Completed, Sorted, Visible;
    var asked := Continue(r, Event.Browse(Some(path)), os);
    EachBrowseAsked(r);
    BrowseAsks(r, Some(path), os);
    StepFaithful(r, Event.Browse(Some(path)), os);
    LateAnswersIgnored(asked, late, os);
    LocalAnswered(asked, path, raw, os);
    var shown := Continue(asked, Answer(r.dialog.issued, LocalRead(raw)), os);
    if r.dialog.selection == PickFile && row < |shown.dialog.entries| && !shown.dialog.entries[row].isDir {
      FileRowTaken(shown, row, true, Query("", "", false, false), os);
    }
  }

  lemma LocalAnswered(r: Run, path: Path, raw: seq<RawEntry>, os: Platform)
    requires Faithful(r) && r.dialog.task.Some? && !r.dialog.authority && r.asked[r.dialog.issued - 1] == Some(path)
    ensures var q := Continue(r, Answer(r.dialog.issued - 1, LocalRead(raw)), os);
            && Faithful(q) && q.picks == r.picks && q.dialog.issued == r.dialog.issued
            && q.dialog.phase == Ready && q.dialog.selection == r.dialog.selection
            && q.dialog.selected == (if r.dialog.selection == PickFile then None else Some(path))
            && q.dialog.entries == Sorted(Visible(raw, r.dialog.selection == PickFile), os.lower)
  {
    hide Sorted, Visible;
    LocalAnswerShown(r, raw, os);
    AnswerFaithful(r, r.dialog.issued - 1, LocalRead(raw), os);
  }
}
