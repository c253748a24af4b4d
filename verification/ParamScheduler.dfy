/** The learning-rate and weight-decay scheduler and its restoration from a checkpoint.

    The cosine and inverse-square-root shapes are parameters: the results hold for any shape.
    Arithmetic is exact. */
module ParamScheduler {
  import opened Wrappers

  /** `cosine(x)` stands for (cos(pi * x) + 1) / 2 and `rootRatio(w, n)` for sqrt(w) / sqrt(n). */
  datatype Shapes = Shapes(cosine: real -> real, rootRatio: (int, int) -> real)

  datatype LrSettings = LrSettings(maxLr: real, minLr: real, warmupSteps: int, decaySteps: int, decayStyle: string)
  datatype WdSettings = WdSettings(startWd: real, endWd: real, incrSteps: int, incrStyle: string)
  datatype Settings = Settings(lr: LrSettings, wd: WdSettings)

  datatype Group = Group(lr: real, weightDecay: real, lrMult: Option<real>, wdMult: Option<real>)

  datatype Mode = Mode(useCheckpoint: bool, overriding: bool)

  // ----- The schedules; `None` where the code raises an exception -----

  function Ratio(n: int, d: int): Option<real> {
    if d == 0 then None
    else
      var r := n as real / d as real;
      if 0.0 <= r <= 1.0 then Some(r) else None
  }

  function GetWd(sh: Shapes, s: WdSettings, n: int): Option<real> {
    if n > s.incrSteps then Some(s.endWd)
    else if s.incrStyle == "constant" then if s.startWd == s.endWd then Some(s.endWd) else None
    else
      match Ratio(n, s.incrSteps)
      case None => None
      case Some(ratio) =>
        var delta := s.endWd - s.startWd;
        if s.incrStyle == "linear" then Some(s.startWd + ratio * delta)
        else if s.incrStyle == "cosine" then Some(s.startWd + sh.cosine(1.0 - ratio) * delta)
        else None
  }

  function GetLr(sh: Shapes, init: real, s: LrSettings, n: int): Option<real> {
    if s.warmupSteps > 0 && n <= s.warmupSteps then
      Some(init + (s.maxLr - init) * n as real / s.warmupSteps as real)
    else if s.decayStyle == "constant" then Some(s.maxLr)
    else if n > s.decaySteps then Some(s.minLr)
    else if s.decayStyle == "inverse-square-root" then
      var lr := s.maxLr * sh.rootRatio(if s.warmupSteps > 1 then s.warmupSteps else 1, if n > 1 then n else 1);
      Some(if s.minLr >= lr then s.minLr else lr)
    else
      match Ratio(n - s.warmupSteps, s.decaySteps - s.warmupSteps)
      case None => None
      case Some(ratio) =>
        var delta := s.maxLr - s.minLr;
        if s.decayStyle == "linear" then Some(s.minLr + (1.0 - ratio) * delta)
        else if s.decayStyle == "cosine" then Some(s.minLr + sh.cosine(ratio) * delta)
        else None
  }

  function Times(x: real, multiplier: Option<real>): real {
    x * match multiplier { case Some(m) => m case None => 1.0 }
  }

  function SetGroup(g: Group, lr: real, wd: real): Group {
    g.(lr := Times(lr, g.lrMult), weightDecay := Times(wd, g.wdMult))
  }

  function SetGroups(groups: seq<Group>, lr: real, wd: real): (r: seq<Group>)
    ensures |r| == |groups| && forall i :: 0 <= i < |r| ==> r[i] == SetGroup(groups[i], lr, wd)
  {
    seq(|groups|, i requires 0 <= i < |groups| => SetGroup(groups[i], lr, wd))
  }

  ghost predicate SameMultipliers(a: seq<Group>, b: seq<Group>) {
    |a| == |b| && forall i :: 0 <= i < |a| ==> a[i].lrMult == b[i].lrMult && a[i].wdMult == b[i].wdMult
  }

  /** The groups after a step to `n`; `None` when the schedules raise an exception. */
  function Stepped(sh: Shapes, init: real, s: Settings, n: int, groups: seq<Group>): Option<seq<Group>> {
    var lr, wd := GetLr(sh, init, s.lr, n), GetWd(sh, s.wd, n);
    if lr.Some? && wd.Some? then Some(SetGroups(groups, lr.value, wd.value)) else None
  }

  /** A step overwrites rates and decays: only the multipliers of the groups matter. */
  lemma SteppedForgets(sh: Shapes, init: real, s: Settings, n: int, a: seq<Group>, b: seq<Group>)
    requires SameMultipliers(a, b)
    ensures Stepped(sh, init, s, n, a) == Stepped(sh, init, s, n, b)
  {
    var lr, wd := GetLr(sh, init, s.lr, n), GetWd(sh, s.wd, n);
    if lr.Some? && wd.Some? {
      assert SetGroups(a, lr.value, wd.value) == SetGroups(b, lr.value, wd.value);
    }
  }

  // ----- State dictionaries -----

  datatype Value = Real(r: real) | Int(i: int) | Text(t: string)
  type Dict = map<string, Value>

  function StateDict(s: Settings, numSteps: int): Dict {
    map["max_lr" := Real(s.lr.maxLr), "lr_warmup_steps" := Int(s.lr.warmupSteps), "num_steps" := Int(numSteps),
        "lr_decay_style" := Text(s.lr.decayStyle), "lr_decay_steps" := Int(s.lr.decaySteps), "min_lr" := Real(s.lr.minLr),
        "start_wd" := Real(s.wd.startWd), "end_wd" := Real(s.wd.endWd), "wd_incr_style" := Text(s.wd.incrStyle),
        "wd_incr_steps" := Int(s.wd.incrSteps)]
  }

  /** The name of an entry: older checkpoints use another one. */
  function Name(sd: Dict, older: string, name: string): string {
    if older in sd then older else name
  }

  function RealAt(sd: Dict, name: string): Option<real> {
    if name in sd && sd[name].Real? then Some(sd[name].r) else None
  }

  function IntAt(sd: Dict, name: string): Option<int> {
    if name in sd && sd[name].Int? then Some(sd[name].i) else None
  }

  function TextAt(sd: Dict, name: string): Option<string> {
    if name in sd && sd[name].Text? then Some(sd[name].t) else None
  }

  function MaxLrName(sd: Dict): string {
    Name(sd, "start_lr", "max_lr")
  }

  function WarmupName(sd: Dict): string {
    Name(sd, "warmup_iter", Name(sd, "warmup_steps", "lr_warmup_steps"))
  }

  function DecayName(sd: Dict): string {
    Name(sd, "end_iter", Name(sd, "decay_steps", "lr_decay_steps"))
  }

  function StyleName(sd: Dict): string {
    Name(sd, "decay_style", "lr_decay_style")
  }

  /** `_check_and_set`, of a value that may be missing. */
  function CheckAndSet<T(==)>(mode: Mode, own: T, saved: Option<T>): Option<T> {
    match saved
    case None => None
    case Some(v) =>
      if mode.overriding then Some(own) else if !mode.useCheckpoint && own != v then None else Some(v)
  }

  function SavedSteps(sd: Dict): Option<int> {
    IntAt(sd, Name(sd, "num_iters", "num_steps"))
  }

  /** The settings after the learning-rate entries are loaded. */
  function LoadLr(mode: Mode, s: LrSettings, sd: Dict): Option<LrSettings> {
    var maxLr := CheckAndSet(mode, s.maxLr, RealAt(sd, MaxLrName(sd)));
    var minLr := CheckAndSet(mode, s.minLr, RealAt(sd, "min_lr"));
    var warmup := CheckAndSet(mode, s.warmupSteps, IntAt(sd, WarmupName(sd)));
    var decay := CheckAndSet(mode, s.decaySteps, IntAt(sd, DecayName(sd)));
    var style := CheckAndSet(mode, s.decayStyle, TextAt(sd, StyleName(sd)));
    if maxLr.Some? && minLr.Some? && warmup.Some? && decay.Some? && style.Some? then
      Some(LrSettings(maxLr.value, minLr.value, warmup.value, decay.value, style.value))
    else None
  }

  /** The settings after the weight-decay entries, if the dictionary has them, are loaded. */
  function LoadWd(mode: Mode, s: WdSettings, sd: Dict): Option<WdSettings> {
    if "start_wd" !in sd then Some(s)
    else
      var start := CheckAndSet(mode, s.startWd, RealAt(sd, "start_wd"));
      var end := CheckAndSet(mode, s.endWd, RealAt(sd, "end_wd"));
      var steps := CheckAndSet(mode, s.incrSteps, IntAt(sd, "wd_incr_steps"));
      var style := CheckAndSet(mode, s.incrStyle, TextAt(sd, "wd_incr_style"));
      if start.Some? && end.Some? && steps.Some? && style.Some? then
        Some(WdSettings(start.value, end.value, steps.value, style.value))
      else None
  }

  /** The learning-rate settings a load leaves behind, also when it fails: entries are set one by one up
      to the first that is missing or does not match. */
  function AfterLr(mode: Mode, s: LrSettings, sd: Dict): LrSettings {
    match CheckAndSet(mode, s.maxLr, RealAt(sd, MaxLrName(sd)))
    case None => s
    case Some(maxLr) =>
      var s1 := s.(maxLr := maxLr);
      match CheckAndSet(mode, s.minLr, RealAt(sd, "min_lr"))
      case None => s1
      case Some(minLr) =>
        var s2 := s1.(minLr := minLr);
        match CheckAndSet(mode, s.warmupSteps, IntAt(sd, WarmupName(sd)))
        case None => s2
        case Some(warmup) =>
          var s3 := s2.(warmupSteps := warmup);
          match CheckAndSet(mode, s.decaySteps, IntAt(sd, DecayName(sd)))
          case None => s3
          case Some(decay) =>
            var s4 := s3.(decaySteps := decay);
            match CheckAndSet(mode, s.decayStyle, TextAt(sd, StyleName(sd)))
            case None => s4
            case Some(style) => s4.(decayStyle := style)
  }

  /** The same for the weight-decay settings. */
  function AfterWd(mode: Mode, s: WdSettings, sd: Dict): WdSettings {
    match CheckAndSet(mode, s.startWd, RealAt(sd, "start_wd"))
    case None => s
    case Some(start) =>
      var s1 := s.(startWd := start);
      match CheckAndSet(mode, s.endWd, RealAt(sd, "end_wd"))
      case None => s1
      case Some(end) =>
        var s2 := s1.(endWd := end);
        match CheckAndSet(mode, s.incrSteps, IntAt(sd, "wd_incr_steps"))
        case None => s2
        case Some(steps) =>
          var s3 := s2.(incrSteps := steps);
          match CheckAndSet(mode, s.incrStyle, TextAt(sd, "wd_incr_style"))
          case None => s3
          case Some(style) => s3.(incrStyle := style)
  }

  /** A load that succeeds leaves what was loaded. */
  lemma AfterIsLoaded(mode: Mode, s: Settings, sd: Dict)
    ensures LoadLr(mode, s.lr, sd).Some? ==> AfterLr(mode, s.lr, sd) == LoadLr(mode, s.lr, sd).value
    ensures LoadWd(mode, s.wd, sd).Some? ==> AfterWd(mode, s.wd, sd) == LoadWd(mode, s.wd, sd).value
  {
  }

  // ----- The scheduler -----

  /** What the constructor asserts. */
  predicate Accepted(init: real, s: Settings, mode: Mode) {
    && s.lr.minLr >= 0.0 && s.lr.maxLr >= s.lr.minLr && init <= s.lr.maxLr
    && s.lr.decaySteps > 0 && s.lr.warmupSteps < s.lr.decaySteps
    && s.wd.startWd >= 0.0 && s.wd.endWd >= s.wd.startWd && !(mode.overriding && mode.useCheckpoint)
  }

  class Scheduler {
    const shapes: Shapes
    const initLr: real
    const mode: Mode
    var settings: Settings
    var numSteps: int
    var groups: seq<Group>

    constructor (sh: Shapes, init: real, s: Settings, m: Mode, gs: seq<Group>)
      requires Accepted(init, s, m) && Stepped(sh, init, s, 0, gs).Some?
      ensures shapes == sh && initLr == init && mode == m && settings == s && numSteps == 0
      ensures Some(groups) == Stepped(sh, init, s, 0, gs) && Valid()
    {
      shapes, initLr, mode, settings, numSteps := sh, init, m, s, 0;
      groups := gs;
      new;
      var _ := Step(0);
    }

    /** The groups hold the rates of the current step. */
    ghost predicate Valid()
      reads this
    {
      Stepped(shapes, initLr, settings, numSteps, groups) == Some(groups)
    }

    /** `step`; when the schedules raise an exception, only the count has moved. */
    method Step(increment: int) returns (ok: bool)
      modifies this
      ensures settings == old(settings) && numSteps == old(numSteps) + increment
      ensures ok <==> Stepped(shapes, initLr, settings, numSteps, old(groups)).Some?
      ensures ok ==> Some(groups) == Stepped(shapes, initLr, settings, numSteps, old(groups))
      ensures ok ==> Valid() && SameMultipliers(groups, old(groups))
      ensures !ok ==> groups == old(groups)
    {
      numSteps := numSteps + increment;
      var newLr, newWd := GetLr(shapes, initLr, settings.lr, numSteps), GetWd(shapes, settings.wd, numSteps);
      if newLr.None? || newWd.None? {
        return false;
      }
      for i := 0 to |groups|
        invariant settings == old(settings) && numSteps == old(numSteps) + increment && |groups| == |old(groups)|
        invariant forall k :: 0 <= k < i ==> groups[k] == SetGroup(old(groups)[k], newLr.value, newWd.value)
        invariant forall k :: i <= k < |groups| ==> groups[k] == old(groups)[k]
      {
        var g := groups[i];
        g := g.(lr := Times(newLr.value, g.lrMult));
        g := g.(weightDecay := Times(newWd.value, g.wdMult));
        groups := groups[i := g];
      }
      assert groups == SetGroups(old(groups), newLr.value, newWd.value);
      SteppedForgets(shapes, initLr, settings, numSteps, groups, old(groups));
      return true;
    }

    /** The learning-rate part of `load_state_dict`. */
    method LoadLrSettings(sd: Dict) returns (ok: bool)
      modifies this`settings
      ensures ok <==> LoadLr(mode, old(settings).lr, sd).Some?
      ensures settings.lr == AfterLr(mode, old(settings).lr, sd)
      ensures settings.wd == old(settings).wd
    {
      var maxLr := CheckAndSet(mode, settings.lr.maxLr, RealAt(sd, MaxLrName(sd)));
      if maxLr.None? { return false; }
      settings := settings.(lr := settings.lr.(maxLr := maxLr.value));
      var minLr := CheckAndSet(mode, settings.lr.minLr, RealAt(sd, "min_lr"));
      if minLr.None? { return false; }
      settings := settings.(lr := settings.lr.(minLr := minLr.value));
      var warmup := CheckAndSet(mode, settings.lr.warmupSteps, IntAt(sd, WarmupName(sd)));
      if warmup.None? { return false; }
      settings := settings.(lr := settings.lr.(warmupSteps := warmup.value));
      var decay := CheckAndSet(mode, settings.lr.decaySteps, IntAt(sd, DecayName(sd)));
      if decay.None? { return false; }
      settings := settings.(lr := settings.lr.(decaySteps := decay.value));
      var style := CheckAndSet(mode, settings.lr.decayStyle, TextAt(sd, StyleName(sd)));
      if style.None? { return false; }
      settings := settings.(lr := settings.lr.(decayStyle := style.value));
      return true;
    }

    /** The weight-decay part of `load_state_dict`. */
    method LoadWdSettings(sd: Dict) returns (ok: bool)
      modifies this`settings
      ensures ok <==> LoadWd(mode, old(settings).wd, sd).Some?
      ensures settings.wd == AfterWd(mode, old(settings).wd, sd)
      ensures settings.lr == old(settings).lr
    {
      if "start_wd" !in sd { return true; }
      var start := CheckAndSet(mode, settings.wd.startWd, RealAt(sd, "start_wd"));
      if start.None? { return false; }
      settings := settings.(wd := settings.wd.(startWd := start.value));
      var end := CheckAndSet(mode, settings.wd.endWd, RealAt(sd, "end_wd"));
      if end.None? { return false; }
      settings := settings.(wd := settings.wd.(endWd := end.value));
      var steps := CheckAndSet(mode, settings.wd.incrSteps, IntAt(sd, "wd_incr_steps"));
      if steps.None? { return false; }
      settings := settings.(wd := settings.wd.(incrSteps := steps.value));
      var style := CheckAndSet(mode, settings.wd.incrStyle, TextAt(sd, "wd_incr_style"));
      if style.None? { return false; }
      settings := settings.(wd := settings.wd.(incrStyle := style.value));
      return true;
    }

    /** `load_state_dict`: the step is taken between the two parts, so it uses the loaded learning-rate
        settings with the scheduler's own weight-decay settings.  A load that fails keeps what it had
        changed: without a step the count, the groups and the weight-decay settings stay; when the step
        fails only the count has moved. */
    method LoadStateDict(sd: Dict) returns (ok: bool)
      modifies this
      ensures ok <==> Restored(shapes, initLr, mode, old(settings), old(numSteps), old(groups), sd).Some?
      ensures ok ==> Some((settings, numSteps, groups)) == Restored(shapes, initLr, mode, old(settings), old(numSteps), old(groups), sd)
      ensures settings.lr == AfterLr(mode, old(settings).lr, sd)
      ensures if !StepsWhenLoading(mode, old(settings), sd) then
                settings.wd == old(settings).wd && numSteps == old(numSteps) && groups == old(groups)
              else
                && numSteps == old(numSteps) + SavedSteps(sd).value
                && match Stepped(shapes, initLr, Settings(settings.lr, old(settings).wd), numSteps, old(groups))
                   case None => settings.wd == old(settings).wd && groups == old(groups)
                   case Some(stepped) => settings.wd == AfterWd(mode, old(settings).wd, sd) && groups == stepped
    {
      AfterIsLoaded(mode, settings, sd);
      var lrOk := LoadLrSettings(sd);
      if !lrOk || SavedSteps(sd).None? { return false; }
      var stepOk := Step(SavedSteps(sd).value);
      if !stepOk { return false; }
      ok := LoadWdSettings(sd);
    }
  }

  /** The learning-rate entries load and the dictionary has a step count. */
  predicate StepsWhenLoading(mode: Mode, s: Settings, sd: Dict) {
    LoadLr(mode, s.lr, sd).Some? && SavedSteps(sd).Some?
  }

  /** The constructor fails exactly when an assertion or one of the schedules at step zero does. */
  method Build(sh: Shapes, init: real, s: Settings, m: Mode, gs: seq<Group>) returns (scheduler: Option<Scheduler>)
    ensures scheduler.Some? <==> Accepted(init, s, m) && Stepped(sh, init, s, 0, gs).Some?
    ensures scheduler.Some? ==>
              && fresh(scheduler.value) && scheduler.value.Valid() && scheduler.value.numSteps == 0
              && scheduler.value.shapes == sh && scheduler.value.initLr == init && scheduler.value.mode == m
              && scheduler.value.settings == s && SameMultipliers(scheduler.value.groups, gs)
  {
    if s.lr.minLr < 0.0 || s.lr.maxLr < s.lr.minLr || init > s.lr.maxLr {
      return None;
    }
    if s.lr.decaySteps <= 0 || s.lr.warmupSteps >= s.lr.decaySteps {
      return None;
    }
    if s.wd.startWd < 0.0 || s.wd.endWd < s.wd.startWd {
      return None;
    }
    if m.overriding && m.useCheckpoint {
      return None;
    }
    if GetLr(sh, init, s.lr, 0).None? || GetWd(sh, s.wd, 0).None? {
      return None;
    }
    var built := new Scheduler(sh, init, s, m, gs);
    scheduler := Some(built);
  }

  /** Settings, step count and groups after loading `sd`. */
  function Restored(sh: Shapes, init: real, mode: Mode, s: Settings, n: int, groups: seq<Group>, sd: Dict)
      : Option<(Settings, int, seq<Group>)>
  {
    var lr, saved, wd := LoadLr(mode, s.lr, sd), SavedSteps(sd), LoadWd(mode, s.wd, sd);
    if lr.None? || saved.None? || wd.None? then None
    else
      match Stepped(sh, init, Settings(lr.value, s.wd), n + saved.value, groups)
      case None => None
      case Some(stepped) => Some((Settings(lr.value, wd.value), n + saved.value, stepped))
  }

  // ----- Restoring -----

  lemma SavedNumbersLoad(own: LrSettings, s: Settings, n: int)
    ensures var sd := StateDict(s, n);
      && CheckAndSet(Mode(true, false), own.maxLr, RealAt(sd, MaxLrName(sd))) == Some(s.lr.maxLr)
      && CheckAndSet(Mode(true, false), own.minLr, RealAt(sd, "min_lr")) == Some(s.lr.minLr)
      && SavedSteps(sd) == Some(n)
  {
  }

  lemma SavedStepsLoad(own: LrSettings, s: Settings, n: int)
    ensures var sd := StateDict(s, n);
      && CheckAndSet(Mode(true, false), own.warmupSteps, IntAt(sd, WarmupName(sd))) == Some(s.lr.warmupSteps)
      && CheckAndSet(Mode(true, false), own.decaySteps, IntAt(sd, DecayName(sd))) == Some(s.lr.decaySteps)
      && CheckAndSet(Mode(true, false), own.decayStyle, TextAt(sd, StyleName(sd))) == Some(s.lr.decayStyle)
  {
  }

  lemma SavedDecayLoads(own: WdSettings, s: Settings, n: int)
    ensures LoadWd(Mode(true, false), own, StateDict(s, n)) == Some(s.wd)
  {
  }

  /** In use-checkpoint mode a saved dictionary brings back every setting and the step count. */
  lemma SavedSettingsLoad(own: Settings, s: Settings, n: int)
    ensures LoadLr(Mode(true, false), own.lr, StateDict(s, n)) == Some(s.lr)
    ensures LoadWd(Mode(true, false), own.wd, StateDict(s, n)) == Some(s.wd)
    ensures SavedSteps(StateDict(s, n)) == Some(n)
  {
    SavedNumbersLoad(own.lr, s, n);
    SavedStepsLoad(own.lr, s, n);
    SavedDecayLoads(own.wd, s, n);
  }

  /** A weight-decay schedule that could take step zero can take every later step. */
  lemma WdDefinedLater(sh: Shapes, s: WdSettings, n: nat)
    requires GetWd(sh, s, 0).Some?
    ensures GetWd(sh, s, n).Some?
  {
    if n <= s.incrSteps && s.incrSteps > 0 {
      RatioDefined(n, s.incrSteps);
    }
  }

  lemma RatioDefined(n: nat, d: nat)
    requires n <= d && d > 0
    ensures Ratio(n, d).Some?
  {
    assert n as real / d as real <= d as real / d as real;
  }

  ghost predicate SameRates(a: seq<Group>, b: seq<Group>) {
    |a| == |b| && forall i :: 0 <= i < |a| ==> a[i].lr == b[i].lr
  }

  /** Loading a running scheduler's state into a fresh one in use-checkpoint mode always succeeds and
      brings back the settings, the step count and the learning rates. */
  lemma RestoreSucceeds(sh: Shapes, init: real, s: Settings, n: nat, groups: seq<Group>, own: Settings, ownGroups: seq<Group>)
    requires Stepped(sh, init, s, n, groups) == Some(groups)
    requires GetWd(sh, own.wd, 0).Some? && SameMultipliers(groups, ownGroups)
    ensures var r := Restored(sh, init, Mode(true, false), own, 0, ownGroups, StateDict(s, n));
      r.Some? && r.value.0 == s && r.value.1 == n && SameMultipliers(groups, r.value.2) && SameRates(groups, r.value.2)
    ensures GetWd(sh, own.wd, n) == GetWd(sh, s.wd, n) ==>
      Restored(sh, init, Mode(true, false), own, 0, ownGroups, StateDict(s, n)) == Some((s, n, groups))
  {
    SavedSettingsLoad(own, s, n);
    WdDefinedLater(sh, own.wd, n);
    var lr, wd := GetLr(sh, init, s.lr, n).value, GetWd(sh, own.wd, n).value;
    var restored := SetGroups(ownGroups, lr, wd);
    assert Stepped(sh, init, Settings(s.lr, own.wd), n, ownGroups) == Some(restored);
    SameAfterSet(groups, ownGroups, lr, GetWd(sh, s.wd, n).value, wd);
  }

  lemma SameAfterSet(groups: seq<Group>, ownGroups: seq<Group>, lr: real, wd: real, ownWd: real)
    requires SameMultipliers(groups, ownGroups) && groups == SetGroups(groups, lr, wd)
    ensures SameMultipliers(groups, SetGroups(ownGroups, lr, ownWd)) && SameRates(groups, SetGroups(ownGroups, lr, ownWd))
    ensures wd == ownWd ==> groups == SetGroups(ownGroups, lr, ownWd)
  {
    forall i | 0 <= i < |groups|
      ensures groups[i].lr == Times(lr, groups[i].lrMult) && groups[i].weightDecay == Times(wd, groups[i].wdMult)
    {
      assert groups[i] == SetGroup(groups[i], lr, wd);
    }
  }

  /** The groups are as the original's straight away exactly when the fresh scheduler's weight decay at
      this step is the original's or no group uses weight decay. */
  lemma RestoreExactIff(sh: Shapes, init: real, s: Settings, n: nat, groups: seq<Group>, own: Settings, ownGroups: seq<Group>)
    requires Stepped(sh, init, s, n, groups) == Some(groups)
    requires GetWd(sh, own.wd, 0).Some? && SameMultipliers(groups, ownGroups)
    ensures Restored(sh, init, Mode(true, false), own, 0, ownGroups, StateDict(s, n)) == Some((s, n, groups))
            <==> GetWd(sh, own.wd, n) == GetWd(sh, s.wd, n) || forall i :: 0 <= i < |groups| ==> groups[i].wdMult == Some(0.0)
  {
    SavedSettingsLoad(own, s, n);
    WdDefinedLater(sh, own.wd, n);
    var lr, wd, ownWd := GetLr(sh, init, s.lr, n).value, GetWd(sh, s.wd, n).value, GetWd(sh, own.wd, n).value;
    var restored := SetGroups(ownGroups, lr, ownWd);
    assert Stepped(sh, init, Settings(s.lr, own.wd), n, ownGroups) == Some(restored);
    SetGroupsExactIff(groups, ownGroups, lr, wd, ownWd);
  }

  lemma SetGroupsExactIff(groups: seq<Group>, ownGroups: seq<Group>, lr: real, wd: real, ownWd: real)
    requires SameMultipliers(groups, ownGroups) && groups == SetGroups(groups, lr, wd)
    ensures SetGroups(ownGroups, lr, ownWd) == groups
            <==> ownWd == wd || forall i :: 0 <= i < |groups| ==> groups[i].wdMult == Some(0.0)
  {
    var restored := SetGroups(ownGroups, lr, ownWd);
    forall i | 0 <= i < |groups|
      ensures restored[i] == groups[i] <==> ownWd == wd || groups[i].wdMult == Some(0.0)
    {
      assert groups[i] == SetGroup(groups[i], lr, wd) && restored[i] == SetGroup(ownGroups[i], lr, ownWd);
      SameProductIff(ownWd, wd, groups[i].wdMult);
    }
  }

  lemma SameProductIff(x: real, y: real, multiplier: Option<real>)
    ensures Times(x, multiplier) == Times(y, multiplier) <==> x == y || multiplier == Some(0.0)
  {
    var m := match multiplier { case Some(m) => m case None => 1.0 };
    assert x * m - y * m == (x - y) * m;
    ZeroProduct(x - y, m);
  }

  lemma ZeroProduct(a: real, m: real)
    ensures a * m == 0.0 <==> a == 0.0 || m == 0.0
  {
    if m != 0.0 {
      assert a == a * m / m;
    }
  }

  /** From the next step on, the restored scheduler is the original: same outcome, same rates, same
      decays, whatever the increment. */
  lemma RestoredThenStep(sh: Shapes, init: real, s: Settings, n: nat, groups: seq<Group>, own: Settings, ownGroups: seq<Group>, k: int)
    requires Stepped(sh, init, s, n, groups) == Some(groups)
    requires GetWd(sh, own.wd, 0).Some? && SameMultipliers(groups, ownGroups)
    ensures var r := Restored(sh, init, Mode(true, false), own, 0, ownGroups, StateDict(s, n));
      r.Some? && Stepped(sh, init, r.value.0, r.value.1 + k, r.value.2) == Stepped(sh, init, s, n + k, groups)
  {
    RestoreSucceeds(sh, init, s, n, groups, own, ownGroups);
    var r := Restored(sh, init, Mode(true, false), own, 0, ownGroups, StateDict(s, n)).value;
    SteppedForgets(sh, init, s, n + k, groups, r.2);
  }

  /** Until that step the weight decay may be another one. */
  lemma DecayStaleUntilStep(sh: Shapes)
    ensures var s := Settings(LrSettings(1.0, 0.0, 0, 10, "constant"), WdSettings(0.5, 0.5, 10, "constant"));
      var own := s.(wd := WdSettings(0.0, 0.0, 10, "constant"));
      var g := [Group(1.0, 0.5, None, None)];
      && Stepped(sh, 0.0, s, 1, g) == Some(g) && GetWd(sh, own.wd, 0).Some?
      && Restored(sh, 0.0, Mode(true, false), own, 0, g, StateDict(s, 1)) == Some((s, 1, [Group(1.0, 0.0, None, None)]))
  {
    var s := Settings(LrSettings(1.0, 0.0, 0, 10, "constant"), WdSettings(0.5, 0.5, 10, "constant"));
    var own := s.(wd := WdSettings(0.0, 0.0, 10, "constant"));
    SavedSettingsLoad(own, s, 1);
    var g := [Group(1.0, 0.5, None, None)];
    assert SetGroups(g, 1.0, 0.5) == g;
    assert SetGroups(g, 1.0, 0.0) == [Group(1.0, 0.0, None, None)];
  }

  /** Save, load into a fresh scheduler, and step both. */
  method Resume(original: Scheduler, other: Scheduler, k: int) returns (ok: bool, okToo: bool)
    requires original != other && original.Valid() && original.numSteps >= 0
    requires other.shapes == original.shapes && other.initLr == original.initLr && other.mode == Mode(true, false)
    requires other.numSteps == 0 && other.Valid() && SameMultipliers(original.groups, other.groups)
    modifies original, other
    ensures ok == okToo && other.settings == original.settings && other.numSteps == original.numSteps
    ensures ok ==> other.groups == original.groups
  {
    RestoredThenStep(original.shapes, original.initLr, original.settings, original.numSteps, original.groups,
                     other.settings, other.groups, k);
    RestoreSucceeds(original.shapes, original.initLr, original.settings, original.numSteps, original.groups,
                    other.settings, other.groups);
    var loaded := other.LoadStateDict(StateDict(original.settings, original.numSteps));
    ok := original.Step(k);
    okToo := other.Step(k);
  }
}
