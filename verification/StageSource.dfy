/** Replacing the deployed source tree, with a crash or an exception possible at every file-system step. */
module StageSource {
  import opened Basics
  import Archive = StageArchive

  datatype Path = App | Stage | Previous | Retired

  /** What is at a path: a directory with its inode and everything below it, or something else. */
  datatype Node = Dir(identity: nat, entries: set<Archive.Parts>) | Other

  /** The identity file beside the previous tree; a torn write leaves it unreadable. */
  datatype Record = Recorded(identity: nat) | Unreadable

  datatype Layout = Layout(trees: map<Path, Node>, record: Option<Record>, archive: bool) {
    predicate Has(p: Path) {
      p in trees
    }
  }

  datatype Refusal = NotADirectory | Unfinished | PreviousWithoutApp | IdentityMissing | IdentityMismatch |
                     RecordWithoutTree | BadArchive

  /** The checks on the layout that come before anything is changed. */
  function Entry(l: Layout): Option<Refusal> {
    if l.Has(App) && l.trees[App].Other? then Some(NotADirectory)
    else if l.Has(Stage) || l.Has(Retired) then Some(Unfinished)
    else if l.Has(Previous) && !l.Has(App) then Some(PreviousWithoutApp)
    else if l.Has(Previous) then
      if l.trees[Previous].Other? || l.record.None? then Some(IdentityMissing)
      else if l.record.value != Recorded(l.trees[Previous].identity) then Some(IdentityMismatch)
      else None
    else if l.record.Some? then Some(RecordWithoutTree)
    else None
  }

  /**
   * A run gets past the checks on three kinds of layout only: nothing deployed, a tree without a previous one, or a
   * tree with a previous one whose identity is on record.
   */
  lemma EntryMeans(l: Layout)
    ensures Entry(l).None? <==>
            && Stage !in l.trees && Retired !in l.trees
            && (|| (App !in l.trees && Previous !in l.trees && l.record == None)
                || (App in l.trees && l.trees[App].Dir? && Previous !in l.trees && l.record == None)
                || (App in l.trees && l.trees[App].Dir? && Previous in l.trees && l.trees[Previous].Dir? &&
                    l.record == Some(Recorded(l.trees[Previous].identity))))
  {
  }

  /** What each refusal tells. */
  lemma RefusalMeans(l: Layout)
    requires Entry(l).Some?
    ensures match Entry(l).value
            case NotADirectory => App in l.trees && l.trees[App].Other?
            case Unfinished => Stage in l.trees || Retired in l.trees
            case PreviousWithoutApp => Previous in l.trees && App !in l.trees
            case IdentityMissing => Previous in l.trees && (l.trees[Previous].Other? || l.record == None)
            case IdentityMismatch =>
              && Previous in l.trees && l.trees[Previous].Dir? && l.record.Some?
              && l.record != Some(Recorded(l.trees[Previous].identity))
            case RecordWithoutTree => Previous !in l.trees && l.record.Some?
            case BadArchive => false
  {
  }

  /** Different directories have different inodes, also the one to be made. */
  ghost predicate OwnInodes(l: Layout, inode: nat) {
    && (forall p, q :: p in l.trees && q in l.trees && p != q && l.trees[p].Dir? && l.trees[q].Dir? ==>
          l.trees[p].identity != l.trees[q].identity)
    && (forall p :: p in l.trees && l.trees[p].Dir? ==> l.trees[p].identity != inode)
  }

  /** How an operation ends: done, raising without effect, or raising after its effect. */
  datatype Fault = Fine | Before | After

  /** A recursive removal passes through a tree that still holds `left`, and then completes or raises. */
  datatype Removal = Removal(left: set<Archive.Parts>, completes: bool)

  datatype Writing = Written | NotOpened | Torn | NotChmodded

  datatype Faults = Faults(mkdir: Fault, extractAt: Option<nat>, retirePrevious: Fault, retireApp: Fault,
                           promote: Fault, restoreApp: Fault, restorePrevious: Fault, clearStage: Removal,
                           writeRecord: Writing, clearRetired: Removal, unlink: Fault)

  datatype Outcome = Refused(reason: Refusal) | Raised | Staged

  // ---------------------------------------------------------------- what the states of a run mean

  ghost predicate Unchanged(start: Layout, l: Layout) {
    l.trees == start.trees && l.record == start.record
  }

  /** The new tree is deployed, the old one is the previous tree and its identity is on record. */
  ghost predicate Swapped(start: Layout, release: Node, l: Layout) {
    if start.Has(App) && start.trees[App].Dir? then
      l.trees == map[App := release, Previous := start.trees[App]] &&
      l.record == Some(Recorded(start.trees[App].identity))
    else
      l.trees == map[App := release] && l.record == None
  }

  /** The tree that was deployed is still there. */
  ghost predicate AppKept(start: Layout, l: Layout) {
    start.Has(App) ==>
      (l.Has(App) && l.trees[App] == start.trees[App]) || (l.Has(Previous) && l.trees[Previous] == start.trees[App])
  }

  /** A later run that gets past its own checks finds the swap not begun or complete. */
  ghost predicate AllOrNothing(start: Layout, release: Node, l: Layout) {
    Entry(l).None? ==> Unchanged(start, l) || Swapped(start, release, l)
  }

  /** What is deployed, if anything, is not an empty directory. */
  ghost predicate AppNotEmpty(l: Layout) {
    l.Has(App) && l.trees[App].Dir? ==> l.trees[App].entries != {}
  }

  ghost predicate Safe(start: Layout, release: Node, l: Layout) {
    AppKept(start, l) && AllOrNothing(start, release, l) && (AppNotEmpty(start) ==> AppNotEmpty(l))
  }

  /** A run that gets past the checks: the layout is in order and the release has something in it. */
  ghost predicate Ready(start: Layout, release: Node) {
    Entry(start).None? && release.Dir? && release.entries != {}
  }

  ghost predicate AllSafe(start: Layout, release: Node, states: seq<Layout>) {
    forall l :: l in states ==> Safe(start, release, l)
  }

  lemma MoreSafe(start: Layout, release: Node, states: seq<Layout>, more: seq<Layout>)
    requires AllSafe(start, release, states) && AllSafe(start, release, more)
    ensures AllSafe(start, release, states + more)
  {
  }

  /**
   * The one way to lose the old tree: it has no entries, and the exception comes after the last rename,
   * whose handler then moves the tree before it over the old one.
   */
  predicate Overwrites(start: Layout, f: Faults, members: seq<Archive.Member>) {
    Extracts(f, members) && Overwritten(start, f)
  }

  predicate Overwritten(start: Layout, f: Faults) {
    f.retirePrevious.Fine? && f.retireApp.Fine? && f.promote.After? && CanOverwrite(start, f)
  }

  predicate CanOverwrite(start: Layout, f: Faults) {
    && start.Has(App) && start.Has(Previous) && start.trees[App].Dir? && start.trees[App].entries == {}
    && !f.restorePrevious.Before?
  }

  /** The trees after the handler has moved the earlier tree over the old one. */
  function Lost(start: Layout, release: Node): map<Path, Node> {
    if Previous in start.trees then map[App := release, Previous := start.trees[Previous]] else start.trees
  }

  ghost predicate Loses(start: Layout, release: Node, l: Layout, f: Faults) {
    l.trees == Promoted(start, release) && CanOverwrite(start, f)
  }

  lemma OldTreeReplaced(start: Layout, release: Node)
    requires Entry(start).None? && start.Has(App) && start.Has(Previous)
    ensures Moved(Promoted(start, release), Retired, Previous) == Lost(start, release)
  {
    AllPaths(start.trees);
  }

  lemma LostIsUnsafe(start: Layout, release: Node, l: Layout)
    requires Entry(start).None? && start.Has(App) && start.Has(Previous) && l.trees == Lost(start, release)
    requires release.Dir? && OwnInodes(start, release.identity)
    ensures !Safe(start, release, l)
  {
    assert start.trees[App] != start.trees[Previous];
  }

  predicate Extracts(f: Faults, members: seq<Archive.Member>) {
    f.mkdir.Fine? && (f.extractAt.None? || f.extractAt.value >= |members|)
  }

  predicate Finishes(start: Layout, f: Faults) {
    (start.Has(App) ==> f.writeRecord.Written?) && (start.Has(Previous) ==> f.clearRetired.completes) && f.unlink.Fine?
  }

  ghost predicate Refuses(start: Layout, checks: bool, members: seq<Archive.Member>) {
    Entry(start).Some? || !start.archive || !checks || !Archive.Acceptable(members)
  }

  predicate Completes(start: Layout, f: Faults, members: seq<Archive.Member>) {
    Extracts(f, members) && Swaps(start, f) && Finishes(start, f)
  }

  /** The run fails before the new tree is in place, and its handlers meet no error. */
  predicate CleanedUp(start: Layout, f: Faults, members: seq<Archive.Member>) {
    || (!Extracts(f, members) && !f.mkdir.After? && f.clearStage.completes)
    || (Extracts(f, members) && Undone(start, f))
  }

  predicate Swaps(start: Layout, f: Faults) {
    (start.Has(Previous) ==> f.retirePrevious.Fine?) && (start.Has(App) ==> f.retireApp.Fine?) && f.promote.Fine?
  }

  /** The exception comes before the new tree is in place, and the handler itself meets no error. */
  predicate Undone(start: Layout, f: Faults) {
    && !Swaps(start, f)
    && ((start.Has(Previous) && !f.retirePrevious.Fine?) || (start.Has(App) && !f.retireApp.Fine?) || f.promote.Before?)
    && f.restoreApp.Fine? && f.restorePrevious.Fine? && f.clearStage.completes
  }

  // ---------------------------------------------------------------- renames

  /** The trees after a rename. */
  function Moved(t: map<Path, Node>, p: Path, q: Path): map<Path, Node>
    requires p in t
  {
    (t - {p})[q := t[p]]
  }

  /** A rename needs its source, and a target that is free or an empty directory. */
  predicate CanMove(t: map<Path, Node>, p: Path, q: Path) {
    p in t && (q !in t || (t[p].Dir? && t[q].Dir? && t[q].entries == {}))
  }

  lemma MoveBack(t: map<Path, Node>, p: Path, q: Path)
    requires p in t && q !in t
    ensures Moved(Moved(t, p, q), q, p) == t
  {
  }

  /**
   * The trees once the new one is extracted, the previous one retired, the app moved aside, and the new one in place.
   */
  function Extracted(start: Layout, release: Node): map<Path, Node> {
    start.trees[Stage := release]
  }

  function PreviousRetired(start: Layout, release: Node): map<Path, Node> {
    if Previous in start.trees then Moved(Extracted(start, release), Previous, Retired) else Extracted(start, release)
  }

  function AppRetired(start: Layout, release: Node): map<Path, Node> {
    if App in start.trees then Moved(PreviousRetired(start, release), App, Previous)
    else PreviousRetired(start, release)
  }

  function Promoted(start: Layout, release: Node): map<Path, Node> {
    Moved(AppRetired(start, release), Stage, App)
  }

  lemma AllPaths(t: map<Path, Node>)
    ensures t.Keys <= {App, Stage, Previous, Retired}
  {
    forall p | p in t
      ensures p in {App, Stage, Previous, Retired}
    {
      match p
      case App =>
      case Stage =>
      case Previous =>
      case Retired =>
    }
  }

  function FinalRecord(start: Layout): Option<Record> {
    if start.Has(App) && start.trees[App].Dir? then Some(Recorded(start.trees[App].identity)) else start.record
  }

  /** With the swap done and the record written, the retired tree is all that is left to remove. */
  lemma PromotedTrees(start: Layout, release: Node)
    requires Entry(start).None?
    ensures Retired in Promoted(start, release) <==> start.Has(Previous)
    ensures forall l: Layout :: l.trees == Promoted(start, release) - {Retired} && l.record == FinalRecord(start) ==>
              Swapped(start, release, l)
    ensures !start.Has(Previous) ==> Promoted(start, release) - {Retired} == Promoted(start, release)
    ensures start.Has(App) ==>
              Previous in Promoted(start, release) && Promoted(start, release)[Previous] == start.trees[App]
  {
    AllPaths(start.trees);
    if start.Has(App) {
      assert Promoted(start, release) - {Retired} == map[App := release, Previous := start.trees[App]];
    } else {
      assert Promoted(start, release) - {Retired} == map[App := release];
    }
  }

  lemma SafeWithRecord(start: Layout, release: Node, l: Layout)
    requires Ready(start, release) && start.Has(App) && l.trees == Promoted(start, release)
    requires l.record == Some(Unreadable) || l.record == FinalRecord(start)
    ensures Safe(start, release, l)
  {
    PromotedTrees(start, release);
  }

  /** A path and the directories above it. */
  function PathTo(path: Archive.Parts): set<Archive.Parts> {
    set k | 0 < k <= |path| :: path[..k]
  }

  /** What extracting the members leaves below the stage. */
  function EntriesOf(members: seq<Archive.Member>): set<Archive.Parts> {
    if members == [] then {}
    else EntriesOf(members[..|members| - 1]) + PathTo(members[|members| - 1].path)
  }

  lemma OneMoreMember(members: seq<Archive.Member>, i: nat)
    requires i < |members|
    ensures EntriesOf(members[..i + 1]) == EntriesOf(members[..i]) + PathTo(members[i].path)
  {
    assert members[..i + 1][..i] == members[..i];
  }

  lemma {:induction false} EntriesAre(members: seq<Archive.Member>, p: Archive.Parts)
    ensures p in EntriesOf(members) <==> p != [] && Archive.Under(members, p)
  {
    if members != [] {
      var front, last := members[..|members| - 1], members[|members| - 1];
      EntriesAre(front, p);
      Archive.UnderMore(front, last, p);
      assert members == front + [last];
      if p != [] && p <= last.path {
        assert p == last.path[..|p|];
      }
    }
  }

  /** The stage holds what extracting the archive creates. */
  lemma StageHoldsArchive(members: seq<Archive.Member>, tree: map<Archive.Parts, Archive.Entry>)
    requires Archive.Holds(tree, members)
    ensures tree.Keys == EntriesOf(members)
  {
    forall p
      ensures p in tree <==> p in EntriesOf(members)
    {
      EntriesAre(members, p);
    }
  }

  /** An accepted archive holds the deployment script, so a release is never empty. */
  lemma ReleaseNotEmpty(members: seq<Archive.Member>)
    requires Archive.Acceptable(members)
    ensures EntriesOf(members) != {}
  {
    EntriesAre(members, Archive.DEPLOY_SCRIPT);
  }

  /** The states a swap can be interrupted in. */
  ghost predicate Midway(start: Layout, release: Node, l: Layout) {
    && l == start.(trees := l.trees)
    && (|| l.trees == Extracted(start, release)
        || l.trees == PreviousRetired(start, release)
        || l.trees == AppRetired(start, release)
        || l.trees == Promoted(start, release))
  }

  /** The new tree is not in place yet. */
  ghost predicate Undoable(start: Layout, release: Node, l: Layout) {
    Midway(start, release, l) && l.Has(Stage)
  }

  /** The first rename of the handler puts the app back where it was moved aside. */
  lemma AppRestored(start: Layout, release: Node, l: Layout)
    requires Entry(start).None? && Midway(start, release, l)
    ensures App in start.trees && l.Has(Previous) && !l.Has(App) ==>
              && l.trees == AppRetired(start, release)
              && Moved(l.trees, Previous, App) == PreviousRetired(start, release)
    ensures !(App in start.trees && l.Has(Previous) && !l.Has(App)) ==>
              l.trees in {Extracted(start, release), PreviousRetired(start, release), Promoted(start, release)}
  {
    if App in start.trees {
      MoveBack(PreviousRetired(start, release), App, Previous);
    }
  }

  /** The second one puts the previous tree back. */
  lemma PreviousRestored(start: Layout, release: Node, l: Layout)
    requires Entry(start).None? && Undoable(start, release, l) &&
             l.trees in {Extracted(start, release), PreviousRetired(start, release)}
    ensures Previous in start.trees && l.Has(Retired) ==>
              l.trees == PreviousRetired(start, release) &&
              Moved(l.trees, Retired, Previous) == Extracted(start, release)
    ensures !(Previous in start.trees && l.Has(Retired)) ==> l.trees == Extracted(start, release)
  {
    if Previous in start.trees {
      MoveBack(Extracted(start, release), Previous, Retired);
    }
  }

  /** An unfinished run shows itself: the stage or the retired tree is there, or the previous tree has no record. */
  lemma SafeOnTheWay(start: Layout, release: Node, l: Layout)
    requires Ready(start, release) && Midway(start, release, l)
    ensures Safe(start, release, l)
  {
    if App !in start.trees && l.trees == Promoted(start, release) {
      AllPaths(start.trees);
      assert l.trees == map[App := release];
    }
  }

  /** While the retired tree is being removed, a later run is still refused. */
  lemma SafeWithRetired(start: Layout, release: Node, l: Layout, retired: Node)
    requires Ready(start, release) && l.trees == Promoted(start, release)[Retired := retired]
    ensures Safe(start, release, l)
  {
    PromotedTrees(start, release);
  }

  /** Undone renames leave the stage as the only difference. */
  lemma SafeInRollback(start: Layout, release: Node, l: Layout, stage: Node)
    requires Entry(start).None? && l.record == start.record && l.trees == start.trees[Stage := stage]
    ensures Safe(start, release, l)
  {
  }

  lemma StageRemoved(start: Layout, stage: Node)
    requires Entry(start).None?
    ensures start.trees[Stage := stage] - {Stage} == start.trees
  {
  }

  // ---------------------------------------------------------------- file-system operations

  /** The operations a run is made of; each takes effect as a whole or not at all. */
  datatype Op =
    | Nothing
    | MakeStage(inode: nat)
    | Move(p: Path, q: Path)
    | ChangeBelow(p: Path, entries: set<Archive.Parts>)  // files and directories below come or go
    | DropDir(p: Path)
    | SetRecord(record: Record)
    | DropArchive

  /** Only the stage and the retired tree are ever written below or removed. */
  predicate Applicable(l: Layout, op: Op) {
    match op
    case Nothing => true
    case MakeStage(_) => !l.Has(Stage)
    case Move(p, q) => CanMove(l.trees, p, q)
    case ChangeBelow(p, _) => (p == Stage || p == Retired) && l.Has(p) && l.trees[p].Dir?
    case DropDir(p) => (p == Stage || p == Retired) && l.Has(p) && l.trees[p].Dir? && l.trees[p].entries == {}
    case SetRecord(_) => true
    case DropArchive => true
  }

  function Effect(l: Layout, op: Op): Layout
    requires Applicable(l, op)
  {
    match op
    case Nothing => l
    case MakeStage(inode) => l.(trees := l.trees[Stage := Dir(inode, {})])
    case Move(p, q) => l.(trees := Moved(l.trees, p, q))
    case ChangeBelow(p, entries) => l.(trees := l.trees[p := Dir(l.trees[p].identity, entries)])
    case DropDir(p) => l.(trees := l.trees - {p})
    case SetRecord(record) => l.(record := Some(record))
    case DropArchive => l.(archive := false)
  }

  ghost predicate OneStep(before: Layout, after: Layout) {
    exists op :: Applicable(before, op) && after == Effect(before, op)
  }

  /** The states of the disk one after the other, without a gap. */
  ghost predicate Trace(states: seq<Layout>) {
    && states != []
    && (|states| > 1 ==> Trace(states[..|states| - 1]) && OneStep(states[|states| - 2], states[|states| - 1]))
  }

  function Last(states: seq<Layout>): Layout
    requires states != []
  {
    states[|states| - 1]
  }

  lemma TraceMore(states: seq<Layout>, op: Op)
    requires Trace(states) && Applicable(Last(states), op)
    ensures Trace(states + [Effect(Last(states), op)])
  {
    assert (states + [Effect(Last(states), op)])[..|states|] == states;
  }

  class SourceDir {
    var disk: Layout
    /** Every state the disk has passed through in this run; a crash stops it in one of them. */
    var history: seq<Layout>

    ghost predicate Tracked(start: Layout)
      reads this
    {
      Trace(history) && history[0] == start && Last(history) == disk
    }

    /** Perform one operation. */
    method Do(op: Op)
      requires Trace(history) && Last(history) == disk && Applicable(disk, op)
      modifies this
      ensures disk == Effect(old(disk), op) && history == old(history) + [disk]
      ensures Trace(history) && history[0] == old(history)[0]
    {
      TraceMore(history, op);
      disk := Effect(disk, op);
      history := history + [disk];
    }

    /** The run so far: its states without a gap, all of them safe. */
    ghost predicate Good(start: Layout, release: Node)
      reads this
    {
      Tracked(start) && AllSafe(start, release, history)
    }

    method Rename(p: Path, q: Path, fault: Fault) returns (ok: bool)
      requires Trace(history) && Last(history) == disk
      modifies this
      ensures ok <==> fault.Fine? && CanMove(old(disk).trees, p, q)
      ensures disk == if CanMove(old(disk).trees, p, q) && !fault.Before?
                      then old(disk).(trees := Moved(old(disk).trees, p, q))
                      else old(disk)
      ensures history == old(history) + [disk] && Trace(history)
    {
      if CanMove(disk.trees, p, q) && !fault.Before? {
        Do(Move(p, q));
        ok := fault.Fine?;
      } else {
        Do(Nothing);
        ok := false;
      }
    }

    /** `rmtree`: a part of the tree is left for some time, then nothing, then the directory itself goes. */
    method RemoveTree(p: Path, removal: Removal) returns (ok: bool)
      requires Trace(history) && Last(history) == disk
      requires (p == Stage || p == Retired) && disk.Has(p) && disk.trees[p].Dir?
      modifies this
      ensures ok == removal.completes && Trace(history)
      ensures var id := old(disk).trees[p].identity;
              var part := old(disk).(trees := old(disk).trees[p := Dir(id, old(disk).trees[p].entries * removal.left)]);
              var bare := old(disk).(trees := old(disk).trees[p := Dir(id, {})]);
              if ok then disk == old(disk).(trees := old(disk).trees - {p}) &&
                         history == old(history) + [part, bare, disk]
              else disk == part && history == old(history) + [part]
    {
      ghost var was := disk.trees;
      var id := disk.trees[p].identity;
      Do(ChangeBelow(p, disk.trees[p].entries * removal.left));
      ok := removal.completes;
      if ok {
        Do(ChangeBelow(p, {}));
        assert disk.trees == was[p := Dir(id, {})];
        Do(DropDir(p));
        assert disk.trees == was - {p};
      }
    }

    /** The handler of a failed extraction or of a failed swap whose renames are undone. */
    method ClearStage(removal: Removal, ghost start: Layout, ghost release: Node)
      requires Ready(start, release) && Good(start, release)
      requires disk.Has(Stage) && disk.trees[Stage].Dir? &&
               disk == start.(trees := start.trees[Stage := disk.trees[Stage]])
      modifies this
      ensures Good(start, release)
      ensures removal.completes ==> disk == start
    {
      ghost var stage, before, was := disk.trees[Stage], history, disk;
      ghost var part, bare := Dir(stage.identity, stage.entries * removal.left), Dir(stage.identity, {});
      ghost var partly, barely := start.(trees := start.trees[Stage := part]),
                                  start.(trees := start.trees[Stage := bare]);
      StageRemoved(start, stage);
      SafeInRollback(start, release, partly, part);
      SafeInRollback(start, release, barely, bare);
      assert was.(trees := was.trees[Stage := part]) == partly && was.(trees := was.trees[Stage := bare]) == barely;
      var ok := RemoveTree(Stage, removal);
      MoreSafe(start, release, before, if ok then [partly, barely, disk] else [partly]);
    }

    /** Write one member into the stage, with the directories above it. */
    method WriteMember(path: Archive.Parts, ghost start: Layout, ghost release: Node)
      requires Ready(start, release) && Good(start, release)
      requires disk.Has(Stage) && disk.trees[Stage].Dir? &&
               disk == start.(trees := start.trees[Stage := disk.trees[Stage]])
      modifies this
      ensures Good(start, release)
      ensures var stage := old(disk).trees[Stage];
              disk == start.(trees := start.trees[Stage := Dir(stage.identity, stage.entries + PathTo(path))])
    {
      ghost var before := history;
      var stage := disk.trees[Stage];
      Do(ChangeBelow(Stage, stage.entries + PathTo(path)));
      stage := Dir(stage.identity, stage.entries + PathTo(path));
      assert disk.trees == start.trees[Stage := stage];
      SafeInRollback(start, release, disk, stage);
      MoreSafe(start, release, before, [disk]);
    }

    /** Make the stage directory and write the members into it. */
    method Extract(f: Faults, inode: nat, members: seq<Archive.Member>, ghost start: Layout, ghost release: Node)
      returns (ok: bool)
      requires Ready(start, release) && Good(start, release) && disk == start &&
               release == Dir(inode, EntriesOf(members))
      modifies this
      ensures Good(start, release)
      ensures ok <==> Extracts(f, members)
      ensures ok ==> disk == start.(trees := Extracted(start, release))
      ensures !ok && !f.mkdir.After? && f.clearStage.completes ==> disk == start
    {
      ok := false;
      if f.mkdir.Before? {
        return;
      }
      ghost var before := history;
      Do(MakeStage(inode));
      SafeInRollback(start, release, disk, Dir(inode, {}));
      MoreSafe(start, release, before, [disk]);
      if f.mkdir.After? {
        return;
      }
      for i := 0 to |members|
        invariant disk == start.(trees := start.trees[Stage := Dir(inode, EntriesOf(members[..i]))])
        invariant Good(start, release)
        invariant f.extractAt.Some? ==> f.extractAt.value >= i
      {
        if f.extractAt == Some(i) {
          ClearStage(f.clearStage, start, release);
          return;
        }
        OneMoreMember(members, i);
        WriteMember(members[i].path, start, release);
      }
      assert members[..|members|] == members;
      ok := true;
    }

    /** One rename of the swap or of its handler that leads from one state on the way to another. */
    method RenameOnTheWay(p: Path, q: Path, fault: Fault, ghost start: Layout, ghost release: Node) returns (ok: bool)
      requires Ready(start, release) && Good(start, release) && Midway(start, release, disk)
      requires CanMove(disk.trees, p, q) ==> Midway(start, release, disk.(trees := Moved(disk.trees, p, q)))
      modifies this
      ensures Good(start, release) && Midway(start, release, disk)
      ensures ok <==> fault.Fine? && CanMove(old(disk).trees, p, q)
      ensures disk == if CanMove(old(disk).trees, p, q) && !fault.Before?
                      then old(disk).(trees := Moved(old(disk).trees, p, q))
                      else old(disk)
    {
      ghost var before := history;
      ok := Rename(p, q, fault);
      SafeOnTheWay(start, release, disk);
      MoreSafe(start, release, before, [disk]);
    }

    /** The handler of a failed swap. */
    method Rollback(f: Faults, hadApp: bool, hadPrevious: bool, ghost start: Layout, ghost release: Node)
      requires Ready(start, release) && Good(start, release) && Midway(start, release, disk)
      requires hadApp == start.Has(App) && hadPrevious == start.Has(Previous)
      modifies this
      ensures Tracked(start)
      ensures !Loses(start, release, old(disk), f) ==> Good(start, release)
      ensures Loses(start, release, old(disk), f) ==> disk.trees == Lost(start, release)
      ensures old(disk).Has(Stage) && f.restoreApp.Fine? && f.restorePrevious.Fine? && f.clearStage.completes ==>
                disk == start
    {
      AppRestored(start, release, disk);
      var ok := true;
      if hadApp && disk.Has(Previous) && !disk.Has(App) {
        ok := RenameOnTheWay(Previous, App, f.restoreApp, start, release);
      }
      if ok {
        RestorePrevious(f, hadPrevious, start, release);
      }
    }

    method RestorePrevious(f: Faults, hadPrevious: bool, ghost start: Layout, ghost release: Node)
      requires Ready(start, release) && Good(start, release) && Midway(start, release, disk)
      requires disk.trees in {Extracted(start, release), PreviousRetired(start, release), Promoted(start, release)}
      requires hadPrevious == start.Has(Previous)
      modifies this
      ensures Tracked(start)
      ensures !Loses(start, release, old(disk), f) ==> Good(start, release)
      ensures Loses(start, release, old(disk), f) ==> disk.trees == Lost(start, release)
      ensures old(disk).Has(Stage) && f.restorePrevious.Fine? && f.clearStage.completes ==> disk == start
    {
      ghost var before := history;
      ghost var loses := Loses(start, release, disk, f);
      if disk.Has(Stage) {
        PreviousRestored(start, release, disk);
      }
      var ok := true;
      if hadPrevious && disk.Has(Retired) {
        ok := Rename(Retired, Previous, f.restorePrevious);
        if loses {
          OldTreeReplaced(start, release);
        } else {
          SafeOnTheWay(start, release, disk);
          MoreSafe(start, release, before, [disk]);
        }
      }
      if ok && disk.Has(Stage) {
        ClearStage(f.clearStage, start, release);
      }
    }

    /** Move the trees into place, undoing the renames when one of them raises. */
    method Swap(f: Faults, ghost start: Layout, ghost release: Node) returns (ok: bool)
      requires Ready(start, release) && Good(start, release) && disk == start.(trees := Extracted(start, release))
      modifies this
      ensures Tracked(start)
      ensures !Overwritten(start, f) ==> Good(start, release)
      ensures Overwritten(start, f) ==> disk.trees == Lost(start, release)
      ensures ok <==> Swaps(start, f)
      ensures ok ==> disk == start.(trees := Promoted(start, release))
      ensures Undone(start, f) ==> disk == start
    {
      var hadApp, hadPrevious := disk.Has(App), disk.Has(Previous);
      ok := true;
      if hadPrevious {
        ok := RenameOnTheWay(Previous, Retired, f.retirePrevious, start, release);
      }
      if ok && hadApp {
        ok := RenameOnTheWay(App, Previous, f.retireApp, start, release);
      }
      if ok {
        ok := RenameOnTheWay(Stage, App, f.promote, start, release);
      }
      if !ok {
        Rollback(f, hadApp, hadPrevious, start, release);
      }
    }

    /** Put the identity of the previous tree on record; a crash on the way leaves it unreadable. */
    method WriteRecord(writing: Writing, ghost start: Layout, ghost release: Node) returns (ok: bool)
      requires Ready(start, release) && Good(start, release)
      requires start.Has(App) && disk == start.(trees := Promoted(start, release))
      modifies this
      ensures Good(start, release)
      ensures ok <==> writing.Written?
      ensures ok ==> disk == start.(trees := Promoted(start, release),
                                    record := Some(Recorded(start.trees[App].identity)))
    {
      if writing.NotOpened? {
        return false;
      }
      PromotedTrees(start, release);
      ghost var before := history;
      Do(SetRecord(Unreadable));
      SafeWithRecord(start, release, disk);
      MoreSafe(start, release, before, [disk]);
      if writing.Torn? {
        return false;
      }
      before := history;
      Do(SetRecord(Recorded(disk.trees[Previous].identity)));
      SafeWithRecord(start, release, disk);
      MoreSafe(start, release, before, [disk]);
      ok := writing.Written?;
    }

    method RemoveRetired(removal: Removal, ghost start: Layout, ghost release: Node) returns (ok: bool)
      requires Ready(start, release) && Good(start, release) && disk.Has(Retired)
      requires disk == start.(trees := Promoted(start, release), record := FinalRecord(start))
      modifies this
      ensures Good(start, release)
      ensures ok <==> removal.completes
      ensures ok ==> Swapped(start, release, disk) && disk.archive == start.archive
    {
      ghost var before, was, retired := history, disk, disk.trees[Retired];
      ghost var part, bare := Dir(retired.identity, retired.entries * removal.left), Dir(retired.identity, {});
      ghost var partly, barely := was.(trees := was.trees[Retired := part]), was.(trees := was.trees[Retired := bare]);
      PromotedTrees(start, release);
      SafeWithRetired(start, release, partly, part);
      SafeWithRetired(start, release, barely, bare);
      ok := RemoveTree(Retired, removal);
      MoreSafe(start, release, before, if ok then [partly, barely, disk] else [partly]);
    }

    /** What follows the swap: the record, the tree before the previous one, the archive. */
    method Finish(f: Faults, hadApp: bool, ghost start: Layout, ghost release: Node) returns (ok: bool)
      requires Ready(start, release) && Good(start, release) && disk == start.(trees := Promoted(start, release))
      requires hadApp == start.Has(App)
      modifies this
      ensures Good(start, release)
      ensures ok <==> Finishes(start, f)
      ensures ok ==> Swapped(start, release, disk) && !disk.archive
    {
      ok := true;
      if hadApp {
        ok := WriteRecord(f.writeRecord, start, release);
      }
      if !ok {
        return;
      }
      PromotedTrees(start, release);
      if disk.Has(Retired) {
        ok := RemoveRetired(f.clearRetired, start, release);
      }
      if ok && !f.unlink.Before? {
        ghost var before := history;
        assert Safe(start, release, disk) by {
          assert disk in history;
        }
        Do(DropArchive);
        MoreSafe(start, release, before, [disk]);
      }
      ok := ok && f.unlink.Fine?;
    }

    /**
     * One run. Whatever fails or stops it, every state of the disk keeps the deployed tree and shows a later run
     * either nothing of the swap or all of it, if and only if the old tree is not overwritten. `checks` stands for
     * the checksum and the disk capacity.
     */
    method StageSource(f: Faults, checks: bool, inode: nat, members: seq<Archive.Member>) returns (r: Outcome)
      modifies this
      ensures Tracked(old(disk))
      ensures r.Refused? <==> Refuses(old(disk), checks, members)
      ensures r.Refused? ==> history == [old(disk)]
      ensures var start, release := old(disk), Dir(inode, EntriesOf(members));
              !r.Refused? ==>
                && (!Overwrites(start, f, members) ==> AllSafe(start, release, history))
                && (Overwrites(start, f, members) && OwnInodes(start, inode) ==> !AllSafe(start, release, history))
                && (r.Staged? <==> Completes(start, f, members))
                && (r.Staged? ==> Swapped(start, release, disk) && !disk.archive)
                && (CleanedUp(start, f, members) ==> disk == start)
    {
      history := [disk];
      ghost var start, release := disk, Dir(inode, EntriesOf(members));
      assert Tracked(start);
      var refusal := Entry(disk);
      if refusal.Some? {
        return Refused(refusal.value);
      }
      var accepted := Archive.Validate(members);
      if !disk.archive || !checks || !accepted {
        return Refused(BadArchive);
      }
      ReleaseNotEmpty(members);
      var hadApp := disk.Has(App);
      var ok := Extract(f, inode, members, start, release);
      if ok {
        ok := Swap(f, start, release);
      }
      if ok {
        ok := Finish(f, hadApp, start, release);
      }
      if Overwrites(start, f, members) && OwnInodes(start, inode) {
        LostIsUnsafe(start, release, disk);
        assert disk in history;
      }
      r := if ok then Staged else Raised;
    }

    /** One run of a series, up to the state in which it ends or crashes. */
    method Try(a: Attempt) returns (e: Episode)
      modifies this
      ensures RunOf(a, e)
      ensures e.start == old(disk).(archive := a.uploaded) && disk == EndOf(a, e)
    {
      disk := disk.(archive := a.uploaded);
      var start := disk;
      var r := StageSource(a.f, a.checks, a.inode, a.members);
      e := Episode(start, Dir(a.inode, EntriesOf(a.members)), history);
      disk := EndOf(a, e);
    }

    /**
     * Any number of runs, each from wherever the one before it ended, was refused or crashed. If the app is
     * absent or not empty to begin with, every state of every run is safe.
     */
    method StageRepeatedly(attempts: seq<Attempt>) returns (episodes: seq<Episode>)
      modifies this
      ensures Series(attempts, episodes, old(disk))
      ensures disk == SeriesEnd(attempts, episodes, old(disk))
      ensures AppNotEmpty(old(disk)) ==> AppNotEmpty(disk) && AllEpisodesSafe(episodes)
    {
      ghost var first := disk;
      episodes := TryAll(attempts);
      SeriesSafe(attempts, episodes, first);
    }

    method TryAll(attempts: seq<Attempt>) returns (episodes: seq<Episode>)
      modifies this
      ensures Series(attempts, episodes, old(disk))
      ensures disk == SeriesEnd(attempts, episodes, old(disk))
      decreases |attempts|
    {
      ghost var first := disk;
      if attempts == [] {
        episodes := [];
      } else {
        var n := |attempts| - 1;
        episodes := TryAll(attempts[..n]);
        var e := Try(attempts[n]);
        SeriesMore(attempts[..n], episodes, first, attempts[n], e);
        assert attempts == attempts[..n] + [attempts[n]];
        episodes := episodes + [e];
      }
    }
  }

  // ---------------------------------------------------------------- one run after another

  /** What one run is given, and the place in its course at which it crashes, if it gets there. */
  datatype Attempt = Attempt(f: Faults, uploaded: bool, checks: bool, inode: nat, members: seq<Archive.Member>,
                             crashAt: Option<nat>)

  /** What one run began with, was to deploy, and passes through unless it crashes. */
  datatype Episode = Episode(start: Layout, release: Node, states: seq<Layout>)

  function EndOf(a: Attempt, e: Episode): Layout
    requires e.states != []
  {
    if a.crashAt.Some? && a.crashAt.value < |e.states| then e.states[a.crashAt.value] else Last(e.states)
  }

  /** What is known of a run before it is made: the states follow one another and end as its faults decide. */
  ghost predicate RunOf(a: Attempt, e: Episode) {
    && e.start.archive == a.uploaded && e.release == Dir(a.inode, EntriesOf(a.members))
    && Trace(e.states) && e.states[0] == e.start
    && (Refuses(e.start, a.checks, a.members) ==> e.states == [e.start])
    && (!Refuses(e.start, a.checks, a.members) ==>
          && (!Overwrites(e.start, a.f, a.members) ==> AllSafe(e.start, e.release, e.states))
          && (Completes(e.start, a.f, a.members) ==>
                Swapped(e.start, e.release, Last(e.states)) && !Last(e.states).archive)
          && (CleanedUp(e.start, a.f, a.members) ==> Last(e.states) == e.start))
  }

  /** Where a series of runs leaves the disk. */
  function SeriesEnd(attempts: seq<Attempt>, episodes: seq<Episode>, first: Layout): Layout {
    if attempts == [] || |attempts| != |episodes| || episodes[|episodes| - 1].states == [] then first
    else EndOf(attempts[|attempts| - 1], episodes[|episodes| - 1])
  }

  /** Each episode is a run of its attempt, from where the ones before it ended, with its own archive put there. */
  ghost predicate Series(attempts: seq<Attempt>, episodes: seq<Episode>, first: Layout) {
    && |episodes| == |attempts|
    && (attempts != [] ==>
          var n := |attempts| - 1;
          && Series(attempts[..n], episodes[..n], first)
          && RunOf(attempts[n], episodes[n])
          && episodes[n].start == SeriesEnd(attempts[..n], episodes[..n], first).(archive := attempts[n].uploaded))
  }

  lemma SeriesMore(attempts: seq<Attempt>, episodes: seq<Episode>, first: Layout, a: Attempt, e: Episode)
    requires Series(attempts, episodes, first) && RunOf(a, e)
    requires e.start == SeriesEnd(attempts, episodes, first).(archive := a.uploaded)
    ensures Series(attempts + [a], episodes + [e], first)
    ensures SeriesEnd(attempts + [a], episodes + [e], first) == EndOf(a, e)
  {
    assert (attempts + [a])[..|attempts|] == attempts && (episodes + [e])[..|attempts|] == episodes;
  }

  ghost predicate EpisodeSafe(e: Episode) {
    AppNotEmpty(e.start) && AllSafe(e.start, e.release, e.states)
  }

  ghost predicate AllEpisodesSafe(episodes: seq<Episode>) {
    forall e :: e in episodes ==> EpisodeSafe(e)
  }

  lemma OneRunSafe(a: Attempt, e: Episode)
    requires RunOf(a, e) && AppNotEmpty(e.start)
    ensures EpisodeSafe(e)
    ensures AppNotEmpty(EndOf(a, e))
  {
    assert EndOf(a, e) in e.states;
  }

  /** A tree that staging deployed is never empty, so it is never overwritten, however often runs fail or crash. */
  lemma {:induction false} RunsSafe(attempts: seq<Attempt>, episodes: seq<Episode>, first: Layout)
    requires Series(attempts, episodes, first) && AppNotEmpty(first)
    ensures AllEpisodesSafe(episodes)
    ensures AppNotEmpty(SeriesEnd(attempts, episodes, first))
    decreases |attempts|
  {
    if attempts != [] {
      var n := |attempts| - 1;
      RunsSafe(attempts[..n], episodes[..n], first);
      OneRunSafe(attempts[n], episodes[n]);
      assert episodes == episodes[..n] + [episodes[n]];
    }
  }

  lemma SeriesSafe(attempts: seq<Attempt>, episodes: seq<Episode>, first: Layout)
    requires Series(attempts, episodes, first)
    ensures AppNotEmpty(first) ==> AppNotEmpty(SeriesEnd(attempts, episodes, first)) && AllEpisodesSafe(episodes)
  {
    if AppNotEmpty(first) {
      RunsSafe(attempts, episodes, first);
    }
  }

  /** Such a run exists: an empty tree is deployed, another is kept, and an interrupt follows the last rename. */
  lemma EmptyTreeCanBeLost() returns (start: Layout, f: Faults, inode: nat, members: seq<Archive.Member>)
    ensures Entry(start).None? && start.archive && Archive.Acceptable(members)
    ensures OwnInodes(start, inode) && Overwrites(start, f, members)
  {
    var script := Archive.DEPLOY_SCRIPT;
    start := Layout(map[App := Dir(1, {}), Previous := Dir(2, {script})], Some(Recorded(2)), true);
    f := Faults(Fine, None, Fine, Fine, After, Fine, Fine, Removal({}, true), Written, Removal({}, true), Fine);
    inode, members := 3, [Archive.Member(script, Archive.IsFile(0))];
    assert members[0] in members;
    assert forall part :: part in script ==> part == "deploy" || part == "tencent" || part == "deploy.sh";
  }
}
