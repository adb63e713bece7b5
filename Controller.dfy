/**
 * The main window's state (CPUAffinity): the configuration `cfg`, the path of the
 * configuration file in use, the current-process label and the core-count editor, and
 * the slots that move values between them, the configuration file and the scripts.
 * File contents, dialog answers and script outputs are parameters.
 */
module Controller {
  import opened Wrappers
  import opened Decimal
  import opened Json
  import opened ConfigStore
  import opened Affinity
  import opened Display
  import opened ProcessList

  /** What opening a configuration file gives: nothing, or its parsed JSON document. */
  datatype FileRead = CannotOpen | Opened(doc: Document)

  /** A configuration written to a file: the path and the JSON object. */
  datatype Saved = Saved(path: string, contents: JsonObject)

  /** What the process-information script gives: no answer in time, or its parsed output. */
  datatype InfoQuery = TimedOut | Finished(doc: Document)

  /**
   * What pressing Apply does: nothing off Windows, a warning when no process is selected,
   * or a launch of the affinity script for `pid` with `cores` cores, which sets `mask`.
   */
  datatype ApplyRequest = Unsupported | NoProcessSelected | Launch(pid: Int64, cores: int, mask: nat)

  const InfoUnsupportedText: string := "Process info only works on Windows."
  const InfoNoProcessText: string := "No process selected."
  const InfoTimedOutText: string := "Timed out reading process info."
  const InfoParseFailedText: string := "Failed to parse process info."
  const AssignedCoresKey: string := "AssignedCores"

  /** The label depends on the process only, not on the core count. */
  lemma LabelIgnoresCores(c: AffinityConfig, n: Int32)
    ensures ProcessLabel(c.(assignedCores := n)) == ProcessLabel(c)
  {
  }

  class CpuAffinity {
    /** `cfg_`: the configuration being edited. */
    var cfg: AffinityConfig
    /** `currentConfigPath_`: the file saved to or loaded from; empty when there is none. */
    var currentConfigPath: string
    /** The text of the current-process label. */
    var processLabel: string
    /** The value of the core-count editor (`spinBoxAssignedCores`). */
    var coresEditor: Int32

    /** The label always describes the configured process. */
    ghost predicate Valid()
      reads this
      ensures Valid() ==> (processLabel == NoProcessText <==> cfg.processName == "")
    {
      processLabel == ProcessLabel(cfg)
    }

    /** The window starts with no process, one core and no file. */
    constructor ()
      ensures Valid()
      ensures cfg == AffinityConfig("", 0, 1) && currentConfigPath == ""
      ensures processLabel == NoProcessText && coresEditor == 1
    {
      cfg := AffinityConfig("", 0, 1);
      currentConfigPath := "";
      processLabel := NoProcessText;
      coresEditor := EditorCores(1);
    }

    /** `refreshUiProcessLabel`: the label is recomputed from `cfg`. */
    method RefreshUiProcessLabel()
      modifies this
      ensures Valid()
      ensures cfg == old(cfg) && currentConfigPath == old(currentConfigPath) && coresEditor == old(coresEditor)
    {
      processLabel := ProcessLabel(cfg);
    }

    /** `pullEditorsIntoConfig`: the editor's core count goes into `cfg`; the label stays right. */
    method PullEditorsIntoConfig()
      requires Valid()
      modifies this
      ensures Valid()
      ensures cfg == old(cfg).(assignedCores := old(coresEditor))
      ensures currentConfigPath == old(currentConfigPath) && coresEditor == old(coresEditor)
      ensures processLabel == old(processLabel)
    {
      cfg := cfg.(assignedCores := coresEditor);
    }

    /** `pushConfigIntoEditors`: the editor shows the configured count, or 1 when that is below 1. */
    method PushConfigIntoEditors()
      modifies this
      ensures coresEditor == EditorCores(cfg.assignedCores)
      ensures cfg == old(cfg) && currentConfigPath == old(currentConfigPath) && processLabel == old(processLabel)
    {
      coresEditor := EditorCores(cfg.assignedCores);
    }

    /** `saveConfigTo`: when the file opens, `cfg`'s JSON object is written to it. Nothing changes. */
    method SaveConfigTo(path: string, opens: bool) returns (ok: bool, written: Option<Saved>)
      ensures ok == opens && (written.Some? <==> ok)
      ensures ok ==> written.value.path == path && written.value.contents == ToJson(cfg)
    {
      if !opens {
        return false, None;
      }
      return true, Some(Saved(path, ToJson(cfg)));
    }

    /**
     * `loadConfigFrom`: a file that cannot be opened or does not hold a JSON object leaves
     * `cfg` alone and fails; otherwise `cfg` becomes what `fromJson` reads. The label is
     * not refreshed here.
     */
    method LoadConfigFrom(file: FileRead) returns (ok: bool)
      modifies this
      ensures ok <==> file.Opened? && file.doc.AnObject?
      ensures ok ==> cfg == FromJson(file.doc.fields).0 && cfg.assignedCores >= 1
      ensures !ok ==> cfg == old(cfg)
      ensures currentConfigPath == old(currentConfigPath) && processLabel == old(processLabel)
      ensures coresEditor == old(coresEditor)
    {
      if file.CannotOpen? || file.doc.NotAnObject? {
        return false;
      }
      var read := FromJson(file.doc.fields);
      cfg := read.0;
      ok := read.1;
    }

    /**
     * `onActionSave`: pull the editor, ask for a path when there is none, then save.
     * A failed save forgets the path; a save with no path at all does nothing more.
     * `dialogPath` is the save dialog's answer, used only when it is asked.
     */
    method OnActionSave(dialogPath: string, opens: bool) returns (written: Option<Saved>)
      requires Valid()
      modifies this
      ensures Valid()
      ensures cfg == old(cfg).(assignedCores := old(coresEditor)) && coresEditor == old(coresEditor)
      ensures var target := if old(currentConfigPath) != "" then old(currentConfigPath) else dialogPath;
        && (target == "" ==> currentConfigPath == "" && written == None)
        && (target != "" && opens ==> currentConfigPath == target && written == Some(Saved(target, ToJson(cfg))))
        && (target != "" && !opens ==> currentConfigPath == "" && written == None)
    {
      PullEditorsIntoConfig();
      if currentConfigPath == "" {
        currentConfigPath := dialogPath;
      }
      if currentConfigPath == "" {
        return None;
      }
      var ok;
      ok, written := SaveConfigTo(currentConfigPath, opens);
      if !ok {
        currentConfigPath := "";
      }
    }

    /**
     * `onActionSaveAs`: pull the editor, ask for a path, save there; only a successful
     * save makes that path the current one.
     */
    method OnActionSaveAs(dialogPath: string, opens: bool) returns (written: Option<Saved>)
      requires Valid()
      modifies this
      ensures Valid()
      ensures cfg == old(cfg).(assignedCores := old(coresEditor)) && coresEditor == old(coresEditor)
      ensures dialogPath != "" && opens ==> currentConfigPath == dialogPath && written == Some(Saved(dialogPath, ToJson(cfg)))
      ensures dialogPath == "" || !opens ==> currentConfigPath == old(currentConfigPath) && written == None
    {
      PullEditorsIntoConfig();
      if dialogPath == "" {
        return None;
      }
      var ok;
      ok, written := SaveConfigTo(dialogPath, opens);
      if ok {
        currentConfigPath := dialogPath;
      }
    }

    /**
     * `onActionLoad`: ask for a path and load it. Success makes it the current path and
     * shows the loaded configuration in the editor and the label; failure changes nothing.
     */
    method OnActionLoad(dialogPath: string, file: FileRead) returns (ok: bool)
      requires Valid()
      modifies this
      ensures Valid()
      ensures ok <==> dialogPath != "" && file.Opened? && file.doc.AnObject?
      ensures ok ==> && cfg == FromJson(file.doc.fields).0
                     && currentConfigPath == dialogPath
                     && coresEditor == cfg.assignedCores
      ensures !ok ==> && cfg == old(cfg) && currentConfigPath == old(currentConfigPath)
                      && processLabel == old(processLabel) && coresEditor == old(coresEditor)
    {
      if dialogPath == "" {
        return false;
      }
      ok := LoadConfigFrom(file);
      if ok {
        currentConfigPath := dialogPath;
        PushConfigIntoEditors();
        RefreshUiProcessLabel();
      }
    }

    /**
     * `onButtonApply`. Off Windows nothing happens. Without a process name or a positive
     * PID nothing changes and no script runs. Otherwise the editor's count goes into
     * `cfg`, is clamped to [1, total], and the script sets a mask with exactly that many
     * bits, all below the processor count.
     */
    method OnButtonApply(isWindows: bool, idealThreadCount: int, fallbackOutput: Option<string>)
      returns (req: ApplyRequest)
      requires Valid()
      modifies this
      ensures Valid()
      ensures !isWindows ==> req == Unsupported
      ensures isWindows && (old(cfg).processName == "" || old(cfg).pid <= 0) ==> req == NoProcessSelected
      ensures !req.Launch? ==> cfg == old(cfg)
      ensures req.Launch? <==> isWindows && old(cfg).processName != "" && old(cfg).pid > 0
      ensures req.Launch? ==>
        var total := TotalLogicalProcessors(idealThreadCount, isWindows, fallbackOutput);
        && cfg == old(cfg).(assignedCores := old(coresEditor))
        && req.pid == cfg.pid
        && req.cores == ClampCores(cfg.assignedCores, total)
        && 1 <= req.cores <= total
        && CountBelow(req.mask, total) == req.cores
        && (forall j :: j >= total ==> !Has(req.mask, j))
      ensures currentConfigPath == old(currentConfigPath) && coresEditor == old(coresEditor)
    {
      if !isWindows {
        return Unsupported;
      }
      if cfg.processName == "" || cfg.pid <= 0 {
        return NoProcessSelected;
      }
      PullEditorsIntoConfig();
      var total := TotalLogicalProcessors(idealThreadCount, isWindows, fallbackOutput);
      var cores := ClampCores(cfg.assignedCores, total);
      var mask := AffinityScript(cores, total);
      req := Launch(cfg.pid, cores, mask);
    }

    /**
     * `updateProcessInfoView`: the list shown for the configured process. Messages stand
     * for the unsupported platform, no process, no answer and an unreadable answer (a
     * process that no longer exists gives no output, so it lands there too). A readable
     * answer lists the process's rows; when it reports `AssignedCores`, that value, read
     * with default 0 and not clamped, becomes `cfg`'s core count and the editor shows it.
     */
    method UpdateProcessInfoView(isWindows: bool, query: InfoQuery, lib: Renderings) returns (view: seq<string>)
      requires Valid()
      modifies this
      ensures Valid()
      ensures !isWindows ==> view == [InfoUnsupportedText]
      ensures isWindows && old(cfg).pid <= 0 ==> view == [InfoNoProcessText]
      ensures isWindows && old(cfg).pid > 0 && query.TimedOut? ==> view == [InfoTimedOutText]
      ensures isWindows && old(cfg).pid > 0 && query == Finished(NotAnObject) ==> view == [InfoParseFailedText]
      ensures isWindows && old(cfg).pid > 0 && query.Finished? && query.doc.AnObject? ==>
        var o := query.doc.fields;
        && view == InfoRows(FieldsOf(o), lib)
        && (AssignedCoresKey in o ==>
              cfg == old(cfg).(assignedCores := ToIntOr(o[AssignedCoresKey], 0)) && coresEditor == EditorCores(cfg.assignedCores))
        && (AssignedCoresKey !in o ==> cfg == old(cfg) && coresEditor == old(coresEditor))
      ensures !(isWindows && old(cfg).pid > 0 && query.Finished? && query.doc.AnObject?) ==>
        cfg == old(cfg) && coresEditor == old(coresEditor)
      ensures currentConfigPath == old(currentConfigPath)
    {
      if !isWindows {
        return [InfoUnsupportedText];
      }
      if cfg.pid <= 0 {
        return [InfoNoProcessText];
      }
      if query.TimedOut? {
        return [InfoTimedOutText];
      }
      if query.doc.NotAnObject? {
        return [InfoParseFailedText];
      }
      view := ShowInspected(query.doc.fields, lib);
    }

    /**
     * The readable-answer part of `updateProcessInfoView`: an `AssignedCores` value, read
     * with default 0 and not clamped, becomes `cfg`'s core count and the editor shows it;
     * the list shows the process's rows.
     */
    method ShowInspected(o: JsonObject, lib: Renderings) returns (view: seq<string>)
      requires Valid()
      modifies this
      ensures Valid()
      ensures view == InfoRows(FieldsOf(o), lib)
      ensures AssignedCoresKey in o ==>
        cfg == old(cfg).(assignedCores := ToIntOr(o[AssignedCoresKey], 0)) && coresEditor == EditorCores(cfg.assignedCores)
      ensures AssignedCoresKey !in o ==> cfg == old(cfg) && coresEditor == old(coresEditor)
      ensures currentConfigPath == old(currentConfigPath)
    {
      view := InfoRows(FieldsOf(o), lib);
      AdoptAssignedCores(o);
    }

    /** The `AssignedCores` step of `updateProcessInfoView`: the reported count, default 0, is taken as it is. */
    method AdoptAssignedCores(o: JsonObject)
      requires Valid()
      modifies this
      ensures Valid()
      ensures AssignedCoresKey in o ==>
        cfg == old(cfg).(assignedCores := ToIntOr(o[AssignedCoresKey], 0)) && coresEditor == EditorCores(cfg.assignedCores)
      ensures AssignedCoresKey !in o ==> cfg == old(cfg) && coresEditor == old(coresEditor)
      ensures currentConfigPath == old(currentConfigPath)
    {
      if AssignedCoresKey in o {
        var n := ToIntOr(o[AssignedCoresKey], 0);
        LabelIgnoresCores(cfg, n);
        cfg := cfg.(assignedCores := n);
        coresEditor := EditorCores(n);
      }
    }

    /**
     * `onButtonSelectProcess`: after the process dialog `dlg` has closed, an accepted
     * choice with a name becomes `cfg`'s process, the label follows, and the process's
     * information is fetched; anything else changes nothing.
     */
    method OnButtonSelectProcess(isWindows: bool, dlg: ProcessListDialog, query: InfoQuery, lib: Renderings)
      returns (view: Option<seq<string>>)
      requires Valid()
      modifies this
      ensures Valid()
      ensures view.Some? <==> isWindows && dlg.accepted && dlg.selected.name != ""
      ensures view.Some? ==> cfg.processName == dlg.selected.name && cfg.pid == dlg.selected.pid
      ensures view.Some? && dlg.selected.pid <= 0 ==> view.value == [InfoNoProcessText]
      ensures view.Some? && dlg.selected.pid > 0 && query.TimedOut? ==> view.value == [InfoTimedOutText]
      ensures view.Some? && dlg.selected.pid > 0 && query == Finished(NotAnObject) ==> view.value == [InfoParseFailedText]
      ensures view.Some? && !(dlg.selected.pid > 0 && query.Finished? && query.doc.AnObject?) ==>
        cfg == old(cfg).(processName := dlg.selected.name, pid := dlg.selected.pid) && coresEditor == old(coresEditor)
      ensures view.Some? && dlg.selected.pid > 0 && query.Finished? && query.doc.AnObject? ==>
        var o := query.doc.fields;
        var chosen := old(cfg).(processName := dlg.selected.name, pid := dlg.selected.pid);
        && view.value == InfoRows(FieldsOf(o), lib)
        && (AssignedCoresKey in o ==>
              cfg == chosen.(assignedCores := ToIntOr(o[AssignedCoresKey], 0)) && coresEditor == EditorCores(cfg.assignedCores))
        && (AssignedCoresKey !in o ==> cfg == chosen && coresEditor == old(coresEditor))
      ensures view.None? ==> cfg == old(cfg) && processLabel == old(processLabel) && coresEditor == old(coresEditor)
      ensures currentConfigPath == old(currentConfigPath)
    {
      if !isWindows || !dlg.accepted || dlg.selected.name == "" {
        return None;
      }
      cfg := cfg.(processName := dlg.selected.name, pid := dlg.selected.pid);
      RefreshUiProcessLabel();
      var rows := UpdateProcessInfoView(isWindows, query, lib);
      view := Some(rows);
    }
  }

  /**
   * The inspection path does not keep the core count at least 1: an `AssignedCores` that
   * is not a whole number in int range is read as 0, and `cfg` keeps that 0.
   */
  method InspectionCanZeroCores(app: CpuAffinity, lib: Renderings)
    requires app.Valid() && app.cfg.pid > 0
    modifies app
    ensures app.cfg.assignedCores == 0 && app.coresEditor == 1
  {
    var o := map[AssignedCoresKey := JString("3")];
    var view := app.UpdateProcessInfoView(true, Finished(AnObject(o)), lib);
  }

  /**
   * Save followed by load of the written object: the name and PID come back, and so
   * does the editor's core count, raised to 1 if it was below.
   */
  method SaveThenLoad(app: CpuAffinity, path: string)
    requires app.Valid() && path != ""
    modifies app
    ensures app.Valid()
    ensures app.cfg.processName == old(app.cfg.processName) && app.cfg.pid == old(app.cfg.pid)
    ensures app.cfg.assignedCores == EditorCores(old(app.coresEditor))
    ensures app.currentConfigPath == path
  {
    var written := app.OnActionSaveAs(path, true);
    SaveLoadKeepsIdentity(app.cfg);
    var ok := app.OnActionLoad(path, Opened(AnObject(written.value.contents)));
  }
}
