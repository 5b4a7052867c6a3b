/** install_locked as a sequence of file writes that may stop after any of them. */
module Install {
  import opened Wrappers
  import opened Migration

  /** The three configuration files and the two original backups. */
  datatype Files = Files(
    main: Option<Doc>,
    advanced: Option<Doc>,
    template: Option<Doc>,
    mainBackup: Option<Doc>,
    advancedBackup: Option<Doc>)

  datatype Defaults = Defaults(main: Option<Doc>, advanced: Option<Doc>, template: Option<Doc>)

  /** What an installation needs besides the files. `valid` is the schema check of a
      complete candidate. */
  datatype Setup = Setup(defaults: Defaults, legacyDefault: bool, valid: (Doc, Option<Doc>) -> bool)

  datatype Write =
    | BackupMain(doc: Doc)
    | BackupAdvanced(doc: Doc)
    | PublishAdvanced(doc: Doc)
    | PublishMain(doc: Doc)
    | InstallTemplate(doc: Doc)

  function Apply(f: Files, w: Write): Files {
    match w
    case BackupMain(d) => f.(mainBackup := Some(d))
    case BackupAdvanced(d) => f.(advancedBackup := Some(d))
    case PublishAdvanced(d) => f.(advanced := Some(d))
    case PublishMain(d) => f.(main := Some(d))
    case InstallTemplate(d) => f.(template := Some(d))
  }

  function ApplyAll(f: Files, ws: seq<Write>): Files
    decreases |ws|
  {
    if ws == [] then f else ApplyAll(Apply(f, ws[0]), ws[1..])
  }

  // --------------------------------------------------------------------- target

  datatype Target = Target(main: Doc, advanced: Option<Doc>, template: Doc)

  function Required(d: Option<Doc>): Result<Doc> {
    if d.Some? then Ok(d.value) else Err("missing installation default")
  }

  function InputAdvanced(s: Setup, f: Files): Result<Option<Doc>> {
    if f.main.None? && f.template.None? && f.advanced.None? then
      if s.defaults.advanced.Some? then Ok(s.defaults.advanced) else Err("missing installation default")
    else Ok(f.advanced)
  }

  /** The complete candidate, validated before any user-owned file changes. */
  function TargetOf(s: Setup, f: Files): Result<Target> {
    var advanced := InputAdvanced(s, f);
    var main := if f.main.Some? then Ok(f.main.value) else Required(s.defaults.main);
    var template := if f.template.Some? then Ok(f.template.value) else Required(s.defaults.template);
    if advanced.Err? || main.Err? || template.Err? then Err("missing installation default")
    else
      var prepared := Prepare(main.value, advanced.value, s.legacyDefault && f.main.Some?);
      if prepared.Err? then Err(prepared.message)
      else
        var newMain := if prepared.value.Some? then prepared.value.value.main else main.value;
        var newAdvanced := if prepared.value.Some? then prepared.value.value.advanced else advanced.value;
        if s.valid(newMain, newAdvanced) then Ok(Target(newMain, newAdvanced, template.value))
        else Err("installation candidate")
  }

  /** The backups still owed before anything is published. */
  function Backups(f: Files, t: Target): seq<Write> {
    (if f.main.Some? && f.main != Some(t.main) && f.mainBackup.None? then [BackupMain(f.main.value)] else [])
    + (if f.advanced.Some? && f.advanced != t.advanced && f.advancedBackup.None?
       then [BackupAdvanced(f.advanced.value)] else [])
  }

  /** Advanced first, main second, a missing template last. */
  function Publications(f: Files, t: Target): seq<Write> {
    (if f.advanced != t.advanced && t.advanced.Some? then [PublishAdvanced(t.advanced.value)] else [])
    + (if f.main != Some(t.main) then [PublishMain(t.main)] else [])
    + (if f.template.None? then [InstallTemplate(t.template)] else [])
  }

  /** The writes that lead there, in order. */
  function WritesTo(f: Files, t: Target): seq<Write> {
    Backups(f, t) + Publications(f, t)
  }

  function Plan(s: Setup, f: Files): Result<seq<Write>> {
    var t := TargetOf(s, f);
    if t.Err? then Err(t.message) else Ok(WritesTo(f, t.value))
  }

  // -------------------------------------------------------------- the Rust code

  class Disk {
    var files: Files

    constructor (files: Files)
      ensures this.files == files
    {
      this.files := files;
    }

    /** backup_once: an original backup is never replaced. */
    method BackupOnce(main: bool, doc: Doc, budget: nat) returns (left: nat)
      modifies this
      ensures var missing := if main then old(files).mainBackup.None? else old(files).advancedBackup.None?;
              var w := if main then BackupMain(doc) else BackupAdvanced(doc);
              if missing && budget > 0 then files == Apply(old(files), w) && left == budget - 1
              else files == old(files) && left == budget
    {
      left := budget;
      if (if main then files.mainBackup.None? else files.advancedBackup.None?) && budget > 0 {
        files := Apply(files, if main then BackupMain(doc) else BackupAdvanced(doc));
        left := left - 1;
      }
    }

    method WriteOne(w: Write, budget: nat) returns (left: nat)
      modifies this
      ensures if budget > 0 then files == Apply(old(files), w) && left == budget - 1
              else files == old(files) && left == budget
    {
      left := budget;
      if budget > 0 {
        files := Apply(files, w);
        left := left - 1;
      }
    }

    method BackupChanged(t: Target, budget: nat) returns (left: nat)
      modifies this
      ensures var ws := Backups(old(files), t);
              files == ApplyAll(old(files), Upto(ws, budget)) && left == Left(ws, budget)
    {
      hide ApplyAll, Upto, Left;
      var was := files;
      left := budget;
      ghost var ws: seq<Write> := [];
      NothingDone(was, budget);
      if was.main.Some? && was.main != Some(t.main) {
        left := BackupOnce(true, was.main.value, left);
        if was.mainBackup.None? {
          ws := OneMore(was, ws, BackupMain(was.main.value), budget);
        }
      }
      if was.advanced.Some? && was.advanced != t.advanced {
        left := BackupOnce(false, was.advanced.value, left);
        if was.advancedBackup.None? {
          ws := OneMore(was, ws, BackupAdvanced(was.advanced.value), budget);
        }
      }
      assert ws == Backups(was, t);
    }

    /** install_locked, stopped after `budget` writes if it would make more. */
    method InstallLocked(s: Setup, budget: nat) returns (ok: bool)
      modifies this
      ensures ok <==> Plan(s, old(files)).Ok?
      ensures !ok ==> files == old(files)
      ensures ok ==> files == ApplyAll(old(files), Upto(Plan(s, old(files)).value, budget))
    {
      hide TargetOf, ApplyAll, Upto, Left, Backups, Apply;
      var target := TargetOf(s, files);
      if target.Err? {
        return false;
      }
      var t := target.value;
      var was := files;
      ghost var ws := Backups(was, t);
      var left := BackupChanged(t, budget);
      if was.advanced != t.advanced && t.advanced.Some? {
        left := WriteOne(PublishAdvanced(t.advanced.value), left);
        ws := OneMore(was, ws, PublishAdvanced(t.advanced.value), budget);
      }
      if was.main != Some(t.main) {
        left := WriteOne(PublishMain(t.main), left);
        ws := OneMore(was, ws, PublishMain(t.main), budget);
      }
      if was.template.None? {
        left := WriteOne(InstallTemplate(t.template), left);
        ws := OneMore(was, ws, InstallTemplate(t.template), budget);
      }
      assert ws == WritesTo(was, t);
      return true;
    }
  }

  function Upto(ws: seq<Write>, k: nat): seq<Write> {
    if k < |ws| then ws[..k] else ws
  }

  /** How many writes a stopped installation can still make. */
  function Left(ws: seq<Write>, budget: nat): nat {
    if |ws| < budget then budget - |ws| else 0
  }

  lemma NothingDone(f: Files, budget: nat)
    ensures ApplyAll(f, Upto([], budget)) == f && Left([], budget) == budget
  {
  }

  lemma OneMore(f: Files, ws: seq<Write>, w: Write, budget: nat) returns (more: seq<Write>)
    ensures more == ws + [w]
    ensures ApplyAll(f, Upto(more, budget)) ==
              if Left(ws, budget) > 0 then Apply(ApplyAll(f, Upto(ws, budget)), w) else ApplyAll(f, Upto(ws, budget))
    ensures Left(more, budget) == if Left(ws, budget) > 0 then Left(ws, budget) - 1 else 0
  {
    more := ws + [w];
    if |ws| < budget {
      ApplyLast(f, ws, w);
    } else {
      assert more[..budget] == ws[..budget];
      assert |ws| == budget ==> ws[..budget] == ws;
    }
  }

  lemma {:induction false} ApplyLast(f: Files, ws: seq<Write>, w: Write)
    ensures ApplyAll(f, ws + [w]) == Apply(ApplyAll(f, ws), w)
    decreases |ws|
  {
    hide Apply;
    if ws == [] {
      assert ([w])[1..] == [] && [] + [w] == [w];
    } else {
      assert (ws + [w])[1..] == ws[1..] + [w];
      ApplyLast(Apply(f, ws[0]), ws[1..], w);
    }
  }

  // ------------------------------------------------------------------ crash safety

  /** The legacy flag cannot come to bear on a main file that this installation puts in
      place: there is one already, or the flag is off, or the default is marked, or it is
      migrated before it is published. */
  predicate Settled(s: Setup, f: Files) {
    || f.main.Some?
    || !s.legacyDefault
    || (s.defaults.main.Some? && s.defaults.main.value.Toml?
        && (Marked(s.defaults.main.value.table) || Legacy(s.defaults.main.value.table, false)))
  }

  /** The main file is never removed. */
  lemma SettledStays(s: Setup, f: Files, w: Write)
    requires Settled(s, f)
    ensures Settled(s, Apply(f, w))
  {
  }

  /** The advanced file is never removed. */
  lemma AdvancedStays(s: Setup, f: Files)
    requires TargetOf(s, f).Ok? && TargetOf(s, f).value.advanced.None?
    ensures f.advanced.None? && InputAdvanced(s, f) == Ok(None)
  {
    hide Legacy, NewMain, PartsOf, NewAdvanced;
  }

  lemma WritesResume(f: Files, t: Target)
    requires WritesTo(f, t) != []
    ensures WritesTo(Apply(f, WritesTo(f, t)[0]), t) == WritesTo(f, t)[1..]
  {
  }

  lemma TargetAfterAdvanced(s: Setup, f: Files)
    requires TargetOf(s, f).Ok? && TargetOf(s, f).value.advanced.Some?
    ensures TargetOf(s, f.(advanced := TargetOf(s, f).value.advanced)) == TargetOf(s, f)
  {
    hide Prepare;
    var main := if f.main.Some? then f.main.value else s.defaults.main.value;
    var flag := s.legacyDefault && f.main.Some?;
    var input := InputAdvanced(s, f).value;
    if Prepare(main, input, flag).value.Some? {
      PrepareAgain(main, input, flag);
    }
  }

  lemma UnmarkedOrCurrent(main: Doc, advanced: Option<Doc>, legacyDefault: bool)
    requires Prepare(main, advanced, false) == Ok(None)
    requires legacyDefault ==> main.Toml? && Marked(main.table)
    ensures Prepare(main, advanced, legacyDefault) == Ok(None)
  {
    hide NewMain, PartsOf, NewAdvanced;
  }

  lemma NoneParses(main: Doc, advanced: Option<Doc>, legacyDefault: bool)
    requires Prepare(main, advanced, legacyDefault).Ok?
    ensures main.Toml? && Parses(advanced)
  {
    hide NewMain, PartsOf, NewAdvanced;
  }

  lemma TargetAfterMain(s: Setup, f: Files)
    requires Settled(s, f) && TargetOf(s, f).Ok?
    requires f.advanced == TargetOf(s, f).value.advanced && f.main != Some(TargetOf(s, f).value.main)
    ensures TargetOf(s, f.(main := Some(TargetOf(s, f).value.main))) == TargetOf(s, f)
  {
    hide Prepare, Marked, Legacy;
    var main := if f.main.Some? then f.main.value else s.defaults.main.value;
    var flag := s.legacyDefault && f.main.Some?;
    var input := InputAdvanced(s, f).value;
    AdvancedComesFirst(s, f);
    NoneParses(main, input, flag);
    if Prepare(main, input, flag).value.Some? {
      PreparedIsCurrent(main, input, flag, input, flag);
      var out := Prepare(main, input, flag).value.value;
      PreparedIsCurrent(main, input, flag, out.advanced, s.legacyDefault);
    } else {
      CurrentIsNotLegacy(main, input, flag);
      UnmarkedOrCurrent(main, input, s.legacyDefault);
    }
  }

  lemma CurrentIsNotLegacy(main: Doc, advanced: Option<Doc>, legacyDefault: bool)
    requires main.Toml? && Prepare(main, advanced, legacyDefault) == Ok(None)
    ensures !Legacy(main.table, legacyDefault)
  {
    hide NewMain, PartsOf, NewAdvanced;
  }

  /** Once the advanced file is in place the candidate is prepared from it. */
  lemma AdvancedComesFirst(s: Setup, f: Files)
    requires TargetOf(s, f).Ok? && f.advanced == TargetOf(s, f).value.advanced
    ensures InputAdvanced(s, f) == Ok(f.advanced)
  {
    if TargetOf(s, f).value.advanced.None? {
      AdvancedStays(s, f);
    }
  }

  /** Each write leaves the target where it was. */
  lemma TargetKept(s: Setup, f: Files)
    requires Settled(s, f)
    ensures TargetOf(s, f).Ok? && WritesTo(f, TargetOf(s, f).value) != [] ==>
              TargetOf(s, Apply(f, WritesTo(f, TargetOf(s, f).value)[0])) == TargetOf(s, f)
  {
    hide Prepare, Settled;
    if TargetOf(s, f).Ok? && WritesTo(f, TargetOf(s, f).value) != [] {
      var t := TargetOf(s, f).value;
      var w := WritesTo(f, t)[0];
      if t.advanced.None? {
        AdvancedStays(s, f);
      }
      match w
      case PublishAdvanced(_) => TargetAfterAdvanced(s, f);
      case PublishMain(_) => TargetAfterMain(s, f);
      case InstallTemplate(_) => AdvancedComesFirst(s, f);
      case _ =>
    }
  }

  lemma {:induction false} SettledAfter(s: Setup, f: Files, ws: seq<Write>)
    requires Settled(s, f)
    ensures Settled(s, ApplyAll(f, ws))
    decreases |ws|
  {
    hide Settled, Apply;
    if ws != [] {
      SettledStays(s, f, ws[0]);
      SettledAfter(s, Apply(f, ws[0]), ws[1..]);
    }
  }

  /** After a crash the plan is what was left of the old one. */
  lemma {:induction false} PlanResumes(s: Setup, f: Files, k: nat)
    requires Settled(s, f)
    ensures Plan(s, f).Ok? && k <= |Plan(s, f).value| ==>
              var g := ApplyAll(f, Plan(s, f).value[..k]);
              Plan(s, g) == Ok(Plan(s, f).value[k..]) && TargetOf(s, g) == TargetOf(s, f)
    decreases k
  {
    hide TargetOf, WritesTo, Apply, Settled;
    if Plan(s, f).Err? || k > |Plan(s, f).value| {
      return;
    }
    var ws := Plan(s, f).value;
    if k == 0 {
      assert ws[..0] == [] && ws[0..] == ws;
    } else {
      TargetKept(s, f);
      WritesResume(f, TargetOf(s, f).value);
      SettledStays(s, f, ws[0]);
      var g := Apply(f, ws[0]);
      assert Plan(s, g) == Ok(ws[1..]);
      PlanResumes(s, g, k - 1);
      assert ws[..k][1..] == ws[1..][..k - 1] && ws[1..][k - 1..] == ws[k..];
    }
  }

  /** One run of the installer, stopped after `budget` writes. */
  function Attempt(s: Setup, f: Files, budget: nat): Files {
    if Plan(s, f).Ok? then ApplyAll(f, Upto(Plan(s, f).value, budget)) else f
  }

  function Attempts(s: Setup, f: Files, budgets: seq<nat>): Files
    decreases |budgets|
  {
    if budgets == [] then f else Attempts(s, Attempt(s, f, budgets[0]), budgets[1..])
  }

  /** The same, uninterrupted. */
  function Finish(s: Setup, f: Files): Files {
    if Plan(s, f).Ok? then ApplyAll(f, Plan(s, f).value) else f
  }

  lemma {:induction false} ApplySplit(f: Files, a: seq<Write>, b: seq<Write>)
    ensures ApplyAll(f, a + b) == ApplyAll(ApplyAll(f, a), b)
    decreases |a|
  {
    hide Apply;
    if a == [] {
      assert a + b == b;
    } else {
      assert (a + b)[1..] == a[1..] + b;
      ApplySplit(Apply(f, a[0]), a[1..], b);
    }
  }

  lemma AttemptResumes(s: Setup, f: Files, budget: nat)
    requires Settled(s, f)
    ensures var g := Attempt(s, f, budget);
            && (Plan(s, g).Ok? <==> Plan(s, f).Ok?) && Finish(s, g) == Finish(s, f)
            && (Plan(s, f).Ok? ==> TargetOf(s, g) == TargetOf(s, f)) && Settled(s, g)
  {
    hide Plan, TargetOf, ApplyAll, Settled;
    if Plan(s, f).Err? {
      return;
    }
    var ws := Plan(s, f).value;
    var k := if budget < |ws| then budget else |ws|;
    assert Upto(ws, budget) == ws[..k] && ws == ws[..k] + ws[k..];
    SettledAfter(s, f, ws[..k]);
    PlanResumes(s, f, k);
    ApplySplit(f, ws[..k], ws[k..]);
  }

  /** Crash safety: however often the installation is cut short, after whichever
      write, running it again ends in the same files as one uninterrupted run. */
  lemma {:induction false} CrashesDoNotMatter(s: Setup, f: Files, budgets: seq<nat>)
    requires Settled(s, f)
    ensures var g := Attempts(s, f, budgets); (Plan(s, g).Ok? <==> Plan(s, f).Ok?) && Finish(s, g) == Finish(s, f)
    decreases |budgets|
  {
    hide Plan, Finish, Attempt, Settled;
    if budgets != [] {
      AttemptResumes(s, f, budgets[0]);
      CrashesDoNotMatter(s, Attempt(s, f, budgets[0]), budgets[1..]);
    }
  }

  /** What an uninterrupted run ends in; a further run has nothing to do. */
  lemma FinishIsTarget(s: Setup, f: Files)
    requires Settled(s, f)
    ensures Plan(s, f).Ok? ==>
              var t := TargetOf(s, f).value; var g := Finish(s, f);
              && g.main == Some(t.main) && g.advanced == t.advanced && g.template == Some(t.template)
              && Plan(s, g) == Ok([])
  {
    if Plan(s, f).Err? {
      return;
    }
    var ws := Plan(s, f).value;
    PlanResumes(s, f, |ws|);
    assert ws[..|ws|] == ws && ws[|ws|..] == [];
    var g := Finish(s, f);
    assert WritesTo(g, TargetOf(s, g).value) == [];
    if TargetOf(s, g).value.advanced.None? {
      AdvancedStays(s, g);
    }
  }

  // ----------------------------------------------------------------- the backups

  /** Seen from the files `orig` an installation towards t started with: documents
      are the old or the new ones, and an old one is gone only if it is backed up. */
  ghost predicate Safe(orig: Files, t: Target, g: Files) {
    && (g.main == orig.main || g.main == Some(t.main))
    && (g.advanced == orig.advanced || g.advanced == t.advanced)
    && (g.mainBackup.Some? ==> g.mainBackup == orig.main)
    && (g.advancedBackup.Some? ==> g.advancedBackup == orig.advanced)
    && (orig.main.Some? && g.main != orig.main ==> g.mainBackup == orig.main)
    && (orig.advanced.Some? && g.advanced != orig.advanced ==> g.advancedBackup == orig.advanced)
  }

  lemma SafeStep(orig: Files, t: Target, g: Files)
    requires Safe(orig, t, g) && WritesTo(g, t) != []
    ensures Safe(orig, t, Apply(g, WritesTo(g, t)[0]))
  {
  }

  lemma {:induction false} SafeUpto(orig: Files, t: Target, g: Files, k: nat)
    requires Safe(orig, t, g) && k <= |WritesTo(g, t)|
    ensures Safe(orig, t, ApplyAll(g, WritesTo(g, t)[..k]))
    decreases k
  {
    if k > 0 {
      hide WritesTo, Safe, Apply;
      var ws := WritesTo(g, t);
      SafeStep(orig, t, g);
      WritesResume(g, t);
      SafeUpto(orig, t, Apply(g, ws[0]), k - 1);
      assert ws[..k][1..] == ws[1..][..k - 1];
    }
  }

  lemma {:induction false} AttemptsSafe(s: Setup, orig: Files, f: Files, budgets: seq<nat>)
    requires Settled(s, f)
    ensures Plan(s, f).Ok? && Safe(orig, TargetOf(s, f).value, f) ==>
              Safe(orig, TargetOf(s, f).value, Attempts(s, f, budgets))
    decreases |budgets|
  {
    hide TargetOf, WritesTo, Safe, Settled;
    if budgets != [] && Plan(s, f).Ok? && Safe(orig, TargetOf(s, f).value, f) {
      var ws := Plan(s, f).value;
      var k := if budgets[0] < |ws| then budgets[0] else |ws|;
      assert Upto(ws, budgets[0]) == ws[..k];
      SafeUpto(orig, TargetOf(s, f).value, f, k);
      AttemptResumes(s, f, budgets[0]);
      AttemptsSafe(s, orig, Attempt(s, f, budgets[0]), budgets[1..]);
    }
  }

  /** With no backups to begin with: at every point of every sequence of attempts a
      backup, if there is one, holds the original document, and there is one whenever
      an original document has been replaced. */
  lemma BackupsHoldOriginals(s: Setup, f: Files, budgets: seq<nat>)
    requires Settled(s, f) && f.mainBackup.None? && f.advancedBackup.None?
    ensures var g := Attempts(s, f, budgets);
            && (g.mainBackup.Some? ==> g.mainBackup == f.main)
            && (g.advancedBackup.Some? ==> g.advancedBackup == f.advanced)
            && (f.main.Some? && g.main != f.main ==> g.mainBackup == f.main)
            && (f.advanced.Some? && g.advanced != f.advanced ==> g.advancedBackup == f.advanced)
  {
    hide TargetOf, WritesTo, Settled;
    if Plan(s, f).Ok? {
      hide Plan, Attempts;
      AttemptsSafe(s, f, f, budgets);
    } else {
      NoPlanNoChange(s, f, budgets);
    }
  }

  lemma {:induction false} NoPlanNoChange(s: Setup, f: Files, budgets: seq<nat>)
    requires Plan(s, f).Err?
    ensures Attempts(s, f, budgets) == f
    decreases |budgets|
  {
    hide Plan;
    if budgets != [] {
      NoPlanNoChange(s, f, budgets[1..]);
    }
  }

  // ------------------------------------------------------ what gets installed

  lemma OneOrNone(f: Files, c: bool, w: Write)
    ensures ApplyAll(f, if c then [w] else []) == if c then Apply(f, w) else f
  {
    hide Apply;
    assert [w][1..] == [];
  }

  /** The files of an uninterrupted installation towards t. */
  lemma FilesAfter(f: Files, t: Target)
    ensures var g := ApplyAll(f, WritesTo(f, t));
            && g.main == Some(t.main)
            && g.advanced == (if t.advanced.Some? then t.advanced else f.advanced)
            && g.template == (if f.template.Some? then f.template else Some(t.template))
            && g.mainBackup == (if f.mainBackup.None? && f.main != Some(t.main) then f.main else f.mainBackup)
            && g.advancedBackup ==
                 (if f.advancedBackup.None? && f.advanced != t.advanced then f.advanced else f.advancedBackup)
  {
    hide ApplyAll;
    var c1 := f.main.Some? && f.main != Some(t.main) && f.mainBackup.None?;
    var c2 := f.advanced.Some? && f.advanced != t.advanced && f.advancedBackup.None?;
    var c3 := f.advanced != t.advanced && t.advanced.Some?;
    var c4 := f.main != Some(t.main);
    var c5 := f.template.None?;
    var w1 := if c1 then [BackupMain(f.main.value)] else [];
    var w2 := if c2 then [BackupAdvanced(f.advanced.value)] else [];
    var w3 := if c3 then [PublishAdvanced(t.advanced.value)] else [];
    var w4 := if c4 then [PublishMain(t.main)] else [];
    var w5 := if c5 then [InstallTemplate(t.template)] else [];
    ApplySplit(f, w1 + w2, w3 + w4 + w5);
    ApplySplit(f, w1, w2);
    OneOrNone(f, c1, BackupMain(if c1 then f.main.value else t.main));
    var f1 := ApplyAll(f, w1);
    OneOrNone(f1, c2, BackupAdvanced(if c2 then f.advanced.value else t.main));
    var f2 := ApplyAll(f1, w2);
    ApplySplit(f2, w3 + w4, w5);
    ApplySplit(f2, w3, w4);
    OneOrNone(f2, c3, PublishAdvanced(if c3 then t.advanced.value else t.main));
    var f3 := ApplyAll(f2, w3);
    OneOrNone(f3, c4, PublishMain(t.main));
    var f4 := ApplyAll(f3, w4);
    OneOrNone(f4, c5, InstallTemplate(t.template));
  }

  /** The check: whatever an accepted installation leaves behind has passed it. */
  lemma InstalledIsValid(s: Setup, f: Files)
    ensures Plan(s, f).Ok? ==> var g := Finish(s, f); g.main.Some? && s.valid(g.main.value, g.advanced)
  {
    if Plan(s, f).Ok? {
      var t := TargetOf(s, f).value;
      FilesAfter(f, t);
      if t.advanced.None? {
        AdvancedStays(s, f);
      }
      hide Prepare, ApplyAll, WritesTo;
    }
  }

  /** And where nothing passes it, no sequence of attempts changes a file. */
  lemma RefusedChangesNothing(s: Setup, f: Files, budgets: seq<nat>)
    requires forall main, advanced :: !s.valid(main, advanced)
    ensures Plan(s, f).Err? && Attempts(s, f, budgets) == f
  {
    NoPlanNoChange(s, f, budgets);
    hide Prepare;
  }

  /** Onto an empty system the three defaults are installed as they are, and nothing is
      backed up. */
  lemma FreshInstall(s: Setup)
    requires s.defaults.main.Some? && s.defaults.advanced.Some? && s.defaults.template.Some?
    requires Prepare(s.defaults.main.value, s.defaults.advanced, false) == Ok(None)
    requires s.valid(s.defaults.main.value, s.defaults.advanced)
    ensures Plan(s, NO_FILES).Ok?
    ensures Finish(s, NO_FILES) == Files(s.defaults.main, s.defaults.advanced, s.defaults.template, None, None)
  {
    hide Prepare;
    FilesAfter(NO_FILES, TargetOf(s, NO_FILES).value);
    hide ApplyAll, WritesTo;
  }

  /** Over existing files the result is what migration makes of them: a current pair stays,
      a legacy pair is replaced and backed up, an existing template stays, and a missing
      advanced file is not put back. */
  lemma Upgrade(s: Setup, f: Files)
    requires f.main.Some? && (f.template.Some? || s.defaults.template.Some?)
    ensures var prepared := Prepare(f.main.value, f.advanced, s.legacyDefault);
            if prepared.Err? then Plan(s, f).Err?
            else
              var main := if prepared.value.Some? then prepared.value.value.main else f.main.value;
              var advanced := if prepared.value.Some? then prepared.value.value.advanced else f.advanced;
              && (Plan(s, f).Ok? <==> s.valid(main, advanced))
              && (Plan(s, f).Ok? ==>
                    Finish(s, f) == Files(
                      Some(main), advanced, if f.template.Some? then f.template else s.defaults.template,
                      if f.mainBackup.None? && f.main != Some(main) then f.main else f.mainBackup,
                      if f.advancedBackup.None? && f.advanced != advanced then f.advanced else f.advancedBackup))
  {
    if TargetOf(s, f).Ok? {
      FilesAfter(f, TargetOf(s, f).value);
      if TargetOf(s, f).value.advanced.None? {
        AdvancedStays(s, f);
      }
    }
    hide Prepare, ApplyAll, WritesTo;
  }

  // ------------------------------------------------------- the hypothesis is exact

  lemma {:induction false} WritesDone(f: Files, t: Target)
    ensures WritesTo(ApplyAll(f, WritesTo(f, t)), t) == []
    decreases |WritesTo(f, t)|
  {
    hide WritesTo, Apply;
    var ws := WritesTo(f, t);
    if ws != [] {
      WritesResume(f, t);
      WritesDone(Apply(f, ws[0]), t);
    }
  }

  lemma DoneIsInPlace(f: Files, t: Target)
    requires WritesTo(f, t) == []
    ensures f.main == Some(t.main)
  {
  }

  /** An uninterrupted installation of an unsettled default leaves it as it is, and the
      next run refuses it or migrates it. */
  lemma UnsettledReruns(s: Setup, f: Files)
    requires Plan(s, f).Ok? && !Settled(s, f)
    ensures var g := Finish(s, f);
            g.main == s.defaults.main && (Plan(s, g).Err? || Finish(s, g).main != g.main)
  {
    var t := TargetOf(s, f).value;
    assert t.main == s.defaults.main.value && t.main.Toml? && !Marked(t.main.table) by {
      hide NewMain, PartsOf, NewAdvanced;
    }
    hide Prepare, Marked, WritesTo, ApplyAll;
    var g := Finish(s, f);
    WritesDone(f, t);
    DoneIsInPlace(g, t);
    if Plan(s, g).Ok? {
      var u := TargetOf(s, g).value;
      NoneParses(t.main, g.advanced, true);
      UnmarkedIsMigrated(t.main, g.advanced);
      MigratedIsMarked(t.main, g.advanced, true);
      WritesDone(g, u);
      DoneIsInPlace(Finish(s, g), u);
    }
  }

  lemma UnmarkedIsMigrated(main: Doc, advanced: Option<Doc>)
    requires main.Toml? && !Marked(main.table) && Prepare(main, advanced, true).Ok?
    ensures Prepare(main, advanced, true).value.Some?
  {
    hide NewMain, PartsOf, NewAdvanced;
  }

  /** Interrupted runs agree with an uninterrupted one exactly in a settled installation,
      or in one that is refused. */
  lemma DefaultHypothesisIsExact(s: Setup, f: Files)
    ensures (forall budgets :: var g := Attempts(s, f, budgets);
               (Plan(s, g).Ok? <==> Plan(s, f).Ok?) && Finish(s, g) == Finish(s, f))
            <==> Plan(s, f).Err? || Settled(s, f)
  {
    hide Plan, Finish, Settled, ApplyAll;
    if Plan(s, f).Err? {
      forall budgets ensures Attempts(s, f, budgets) == f {
        NoPlanNoChange(s, f, budgets);
      }
    } else if Settled(s, f) {
      forall budgets
        ensures var g := Attempts(s, f, budgets); Plan(s, g).Ok? && Finish(s, g) == Finish(s, f)
      {
        CrashesDoNotMatter(s, f, budgets);
      }
    } else {
      var all := |Plan(s, f).value|;
      OneAttempt(s, f, all);
      assert Attempts(s, f, [all]) == Finish(s, f);
      UnsettledReruns(s, f);
    }
  }

  lemma OneAttempt(s: Setup, f: Files, budget: nat)
    ensures Plan(s, f).Ok? && budget == |Plan(s, f).value| ==> Attempts(s, f, [budget]) == Finish(s, f)
  {
    hide Plan, ApplyAll;
    var g := Attempt(s, f, budget);
    assert [budget][1..] == [] && Attempts(s, g, []) == g;
  }

  const BLANK: Option<Doc> := Some(Toml(map[]))
  const NO_FILES: Files := Files(None, None, None, None, None)
  const BLANK_DEFAULTS: Setup := Setup(Defaults(BLANK, BLANK, BLANK), true, (main, advanced) => true)

  lemma BlankRuns()
    ensures Plan(BLANK_DEFAULTS, NO_FILES).Ok?
    ensures var g := Finish(BLANK_DEFAULTS, NO_FILES);
            g.main == BLANK && Plan(BLANK_DEFAULTS, g).Ok? && Finish(BLANK_DEFAULTS, g).main != BLANK
  {
  }

  /** An install that fails the condition: a blank default main file goes in as it is,
      and the next run, under the legacy flag, replaces it. */
  lemma BlankDefaultIsMigratedLater()
    ensures exists budgets :: var g := Attempts(BLANK_DEFAULTS, NO_FILES, budgets);
              && Plan(BLANK_DEFAULTS, g).Ok? && g.main == Finish(BLANK_DEFAULTS, NO_FILES).main == BLANK
              && Finish(BLANK_DEFAULTS, g).main != BLANK
  {
    BlankRuns();
    hide Plan, Finish, Attempts;
    var all := |Plan(BLANK_DEFAULTS, NO_FILES).value|;
    OneAttempt(BLANK_DEFAULTS, NO_FILES, all);
    var g := Attempts(BLANK_DEFAULTS, NO_FILES, [all]);
    assert g == Finish(BLANK_DEFAULTS, NO_FILES);
  }

  lemma MigratedIsMarked(main: Doc, advanced: Option<Doc>, legacyDefault: bool)
    requires Prepare(main, advanced, legacyDefault).Ok? && Prepare(main, advanced, legacyDefault).value.Some?
    ensures var out := Prepare(main, advanced, legacyDefault).value.value.main; out.Toml? && Marked(out.table)
  {
    NewMainCurrent(main.table, Subscription(main.table).value);
    hide NewMain, PartsOf, NewAdvanced;
  }
}
