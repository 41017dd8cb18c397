/** The load state that survives a reboot in the filament log. */
module GlobalState {
  import opened Machine
  import opened FilamentLog
  import opened FilamentFaults
  import opened FilamentCuts
  import FilamentDevice

  datatype LoadState = NotLoaded | AtPulley | InSelector | InFSensor | InNozzle {
    /** The numeric order of the states. */
    function Level(): nat {
      match this
      case NotLoaded => 0
      case AtPulley => 1
      case InSelector => 2
      case InFSensor => 4
      case InNozzle => 8
    }

    predicate Loaded() { Level() > AtPulley.Level() }
  }

  /** One call of SetFilamentLoaded. */
  datatype Report = Report(slot: Byte, state: LoadState) {
    /** What the call stores in the log. */
    function Recorded(): Byte { if state.Loaded() then slot else TOOL_COUNT }
  }

  function Recorded(reports: seq<Report>): seq<Byte> {
    seq(|reports|, i requires 0 <= i < |reports| => reports[i].Recorded())
  }

  /** What Init makes of the log: the active slot and the assumed load state. */
  function Recovered(st: Store): Report {
    match Get(st)
    case Some(slot) => Report(slot, if slot < TOOL_COUNT then InNozzle else AtPulley)
    case None => Report(TOOL_COUNT, AtPulley)
  }

  function Assumed(v: Byte): Report {
    if v % 16 < TOOL_COUNT then Report(v % 16, InNozzle) else Report(TOOL_COUNT, AtPulley)
  }

  /**
  A reboot after any history of reports, with tolerated cell faults. An unloaded state comes
  back unloaded. A loaded one comes back with its own slot and a state no lower than before
  exactly when the slot is one of the tools.
  */
  lemma RebootRecovers(st: Store, reports: seq<Report>)
    requires Erased(st) && Tolerated(st) && (st.badData.Some? ==> |st.data| >= 2)
    requires reports != []
    ensures var last := reports[|reports| - 1];
      var now := Recovered(AfterSets(st, Recorded(reports)));
      && now == Assumed(last.Recorded())
      && (!last.state.Loaded() ==> now == Report(TOOL_COUNT, AtPulley))
      && (last.state.Loaded() ==>
            (now.slot == last.slot && now.state.Level() >= last.state.Level() <==> last.slot < 5))
  {
    hide AfterSets, AllSucceed, Get, Tolerated, Erased;
    ToleratedRemembers(st, Recorded(reports));
    assert Get(AfterSets(st, Recorded(reports))) == Answer(reports[|reports| - 1].Recorded());
  }

  /**
  A power cut at any byte update of SetFilamentLoaded: the reboot finds the state before the
  call, the state after it, or no filament.
  */
  lemma CutReportRecovers(st: Store, calls: seq<Call>, report: Report, power: nat)
    requires Erased(st) && CutProof(st)
    ensures var before := AfterCalls(st, calls);
      var now := Recovered(AfterCall(before, Call(report.Recorded(), Some(power))));
      || now == Recovered(before)
      || now == Assumed(report.Recorded())
      || now == Report(TOOL_COUNT, AtPulley)
  {
    hide AfterCall, AfterCalls, Set, AfterSet, Get;
    PowerCutIsSafe(st, calls, Call(report.Recorded(), Some(power)), 0);
  }

  /** The parameters that a printer may change until the next reboot. */
  datatype Parameters = Parameters(
    fsensorToNozzle: Byte,
    fsensorUnloadCheck: Byte,
    pulleyLoadFeedrate: U16,
    pulleySlowFeedrate: U16,
    pulleyUnloadFeedrate: U16,
    selectorFeedrate: U16,
    selectorHomingFeedrate: U16,
    idlerFeedrate: U16,
    idlerHomingFeedrate: U16,
    cutIRunCurrent: Byte,
    cutLength: Byte
  )

  /** The values of the configuration. */
  const CONFIGURED := Parameters(30, 40, 95, 20, 95, 45, 30, 300, 265, 40, 8)

  class Globals {
    const log: FilamentDevice.FilamentLoaded
    var activeSlot: Byte
    var filamentLoaded: LoadState
    var parameters: Parameters

    constructor (log: FilamentDevice.FilamentLoaded)
      requires log.Valid()
      ensures this.log == log
      ensures Report(activeSlot, filamentLoaded) == Recovered(log.Contents()) && parameters == CONFIGURED
    {
      this.log := log;
      activeSlot, filamentLoaded, parameters := TOOL_COUNT, AtPulley, CONFIGURED;
      new;
      Init();
    }

    method Init()
      requires log.Valid()
      modifies this
      ensures Report(activeSlot, filamentLoaded) == Recovered(log.Contents()) && parameters == CONFIGURED
    {
      var ok, slot := log.Get();
      activeSlot := slot;
      if !ok {
        activeSlot := TOOL_COUNT;
      }
      if activeSlot < TOOL_COUNT {
        filamentLoaded := InNozzle;
      } else {
        filamentLoaded := AtPulley;
      }
      parameters := CONFIGURED;
    }

    method SetFilamentLoaded(slot: Byte, state: LoadState)
      requires log.Valid()
      modifies this, log, log.status, log.filament
      ensures log.Valid()
      ensures activeSlot == slot && filamentLoaded == state && parameters == old(parameters)
      ensures log.Contents() == AfterSet(old(log.Contents()), Report(slot, state).Recorded())
    {
      filamentLoaded := state;
      activeSlot := slot;
      match state {
        case NotLoaded | AtPulley =>
          var _ := log.Set(TOOL_COUNT);
        case InSelector | InFSensor | InNozzle =>
          var _ := log.Set(slot);
      }
    }
  }
}
