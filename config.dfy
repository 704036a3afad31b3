/**
  Configuration-time directive handling of naxsi_skeleton.c: the location
  handler `ngx_http_dummy_read_conf`, the main-level handler
  `ngx_http_dummy_read_main_conf` and the location merge
  `ngx_http_dummy_merge_loc_conf`.

  The location and main configurations are objects whose fields the handlers
  assign and whose rule arrays they push onto. Every array is created right
  before its first push, so a NULL array is modelled as the empty sequence.
  Each handler is specified by a function on a value snapshot of the object
  (`LocState`, `RuleSets`), and the properties are proved about those functions.
*/
module NaxsiConfig {
  import opened Wrappers
  import opened NaxsiRules
  import CheckRules

  /**
    The directive keyword, i.e. the result of comparing `value[0]` with the
    directive names (whose spellings live in naxsi.h).
  */
  datatype Keyword =
    | DeniedUrl
    | RulesEnabled
    | RulesDisabled
    | LearningMode
    | BasicRule
    | CheckRule
    | MainRule
    | Unknown(name: string)

  /** One directive: its keyword and its arguments `value[1]`, `value[2]`, ... */
  datatype Directive = Directive(keyword: Keyword, args: seq<string>)

  /**
    The arguments the handlers read: `DeniedUrl` reads `value[1]` and
    `CheckRule` reads `value[1]` and `value[2]` (the latter without checking
    the argument count).
  */
  predicate HasArgs(d: Directive)
  {
    && (d.keyword == DeniedUrl ==> |d.args| >= 1)
    && (d.keyword == CheckRule ==> |d.args| >= 2)
  }

  datatype ConfStatus = ConfOk | ConfError

  /** Value snapshot of a location configuration (the counters belong to the request handler). */
  datatype LocState = LocState(
    pushed: bool,
    enabled: bool,
    forceDisabled: bool,
    learning: bool,
    deniedUrl: Option<string>,
    whitelist: seq<Rule>,
    sets: RuleSets,
    checks: seq<CheckRules.CheckRule>)

  /** A freshly allocated (zeroed) location configuration. */
  function EmptyLoc(): LocState
  {
    LocState(false, false, false, false, None, [], EmptySets(), [])
  }

  /**
    The location invariant: whitelist rules carry a whitelist id and are found
    nowhere else, and every rule in a target collection targets it.
  */
  predicate Separated(s: LocState)
  {
    && (forall x :: x in s.whitelist ==> x.wlId != 0)
    && AllTarget(s.sets.header, HeaderRules)
    && AllTarget(s.sets.body, BodyRules)
    && AllTarget(s.sets.generic, GenericRules)
    && AllTarget(s.sets.get, GetRules)
  }

  /** Every rule of `xs` is a non-whitelist rule that targets collection `c`. */
  predicate AllTarget(xs: seq<Rule>, c: Collection)
  {
    forall x :: x in xs ==> x.wlId == 0 && Targets(x, c)
  }

  datatype ConfStep = ConfStep(state: LocState, status: ConfStatus)

  /** What `ngx_http_dummy_read_conf` does with directive `d`; `parsed` is the rule parser's outcome. */
  function ReadConfSpec(s: LocState, d: Directive, parsed: Option<Rule>): ConfStep
    requires HasArgs(d)
  {
    var s := s.(pushed := true);
    if d.keyword == DeniedUrl && |d.args[0]| > 0 then ConfStep(s.(deniedUrl := Some(d.args[0])), ConfOk)
    else if d.keyword == RulesEnabled then ConfStep(s.(enabled := true), ConfOk)
    else if d.keyword == RulesDisabled then ConfStep(s.(forceDisabled := true), ConfOk)
    else if d.keyword == LearningMode then ConfStep(s.(learning := true), ConfOk)
    else if d.keyword == BasicRule then
      match parsed
      case None => ConfStep(s, ConfError)
      case Some(r) => ConfStep(AddRule(s, r), ConfOk)
    else if d.keyword == CheckRule then
      var p := CheckRules.CheckRuleSpec(d.args[0], d.args[1]);
      ConfStep(s.(checks := s.checks + [p.entry]), if p.accepted then ConfOk else ConfError)
    else ConfStep(s, ConfError)
  }

  /** A parsed BasicRule: to the whitelist when it has a whitelist id, else to its targets. */
  function AddRule(s: LocState, r: Rule): LocState
  {
    if r.wlId != 0 then s.(whitelist := s.whitelist + [r])
    else s.(sets := Route(s.sets, r))
  }

  datatype MainStep = MainStep(sets: RuleSets, status: ConfStatus)

  /** What `ngx_http_dummy_read_main_conf` does: the same routing, with no whitelist branch. */
  function ReadMainConfSpec(sets: RuleSets, d: Directive, parsed: Option<Rule>): MainStep
  {
    if d.keyword == MainRule then
      match parsed
      case None => MainStep(sets, ConfError)
      case Some(r) => MainStep(Route(sets, r), ConfOk)
    else MainStep(sets, ConfError)
  }

  /** A child collection that is NULL (empty) takes the parent's. */
  function Inherit<T>(mine: seq<T>, parents: seq<T>): seq<T>
  {
    if mine == [] then parents else mine
  }

  /** What `ngx_http_dummy_merge_loc_conf` does: GET rules and flags are not inherited. */
  function MergeSpec(child: LocState, parent: LocState): LocState
  {
    child.(
      whitelist := Inherit(child.whitelist, parent.whitelist),
      checks := Inherit(child.checks, parent.checks),
      sets := child.sets.(
        body := Inherit(child.sets.body, parent.sets.body),
        header := Inherit(child.sets.header, parent.sets.header),
        generic := Inherit(child.sets.generic, parent.sets.generic)))
  }

  /** The main (http-level) configuration. */
  class MainConf {
    var locations: seq<LocConf>
    var headerRules: seq<Rule>
    var bodyRules: seq<Rule>
    var genericRules: seq<Rule>
    var getRules: seq<Rule>

    function Sets(): RuleSets
      reads this
    {
      RuleSets(headerRules, bodyRules, genericRules, getRules)
    }

    constructor ()
      ensures locations == [] && Sets() == EmptySets()
    {
      locations := [];
      headerRules, bodyRules, genericRules, getRules := [], [], [], [];
    }

    /** `ngx_http_dummy_read_main_conf`. */
    method ReadMainConf(d: Directive, parsed: Option<Rule>) returns (st: ConfStatus)
      modifies this`headerRules, this`bodyRules, this`genericRules, this`getRules
      ensures MainStep(Sets(), st) == ReadMainConfSpec(old(Sets()), d, parsed)
    {
      if d.keyword == MainRule {
        if parsed.None? {
          return ConfError;
        }
        var out := Classify(parsed.value, Sets());
        headerRules, bodyRules, genericRules, getRules := out.header, out.body, out.generic, out.get;
        return ConfOk;
      }
      return ConfError;
    }
  }

  /** A location configuration. */
  class LocConf {
    var pushed: bool
    var enabled: bool
    var forceDisabled: bool
    var learning: bool
    var deniedUrl: Option<string>
    var whitelistRules: seq<Rule>
    var headerRules: seq<Rule>
    var bodyRules: seq<Rule>
    var genericRules: seq<Rule>
    var getRules: seq<Rule>
    var checkRules: seq<CheckRules.CheckRule>
    var requestProcessed: nat
    var requestBlocked: nat

    function State(): LocState
      reads this
    {
      LocState(pushed, enabled, forceDisabled, learning, deniedUrl, whitelistRules,
        RuleSets(headerRules, bodyRules, genericRules, getRules), checkRules)
    }

    ghost predicate Valid()
      reads this
    {
      Separated(State())
    }

    /** `ngx_http_dummy_create_loc_conf`: a zeroed structure. */
    constructor ()
      ensures State() == EmptyLoc() && Valid()
      ensures requestProcessed == 0 && requestBlocked == 0
    {
      pushed, enabled, forceDisabled, learning := false, false, false, false;
      deniedUrl := None;
      whitelistRules, headerRules, bodyRules, genericRules, getRules := [], [], [], [], [];
      checkRules := [];
      requestProcessed, requestBlocked := 0, 0;
    }

    /**
      `ngx_http_dummy_read_conf`: registers the location with the main
      configuration on its first directive, then dispatches on the keyword.
    */
    method ReadConf(main: MainConf, d: Directive, parsed: Option<Rule>) returns (st: ConfStatus)
      requires HasArgs(d)
      requires Valid()
      modifies this, main`locations
      ensures Valid()
      ensures ConfStep(State(), st) == ReadConfSpec(old(State()), d, parsed)
      ensures main.locations == if old(pushed) then old(main.locations) else old(main.locations) + [this]
      ensures requestProcessed == old(requestProcessed) && requestBlocked == old(requestBlocked)
    {
      ReadConfKeepsSeparated(State(), d, parsed);
      st := Dispatch(main, d, parsed);
    }

    /** The body of `ngx_http_dummy_read_conf`: registration, then the keyword chain. */
    method Dispatch(main: MainConf, d: Directive, parsed: Option<Rule>) returns (st: ConfStatus)
      requires HasArgs(d)
      modifies this, main`locations
      ensures ConfStep(State(), st) == ReadConfSpec(old(State()), d, parsed)
      ensures main.locations == if old(pushed) then old(main.locations) else old(main.locations) + [this]
      ensures requestProcessed == old(requestProcessed) && requestBlocked == old(requestBlocked)
    {
      if !pushed {
        main.locations := main.locations + [this];
        pushed := true;
      }
      if d.keyword == DeniedUrl && |d.args[0]| > 0 {
        deniedUrl := Some(d.args[0]);
        return ConfOk;
      }
      if d.keyword == RulesEnabled {
        enabled := true;
        return ConfOk;
      }
      if d.keyword == RulesDisabled {
        forceDisabled := true;
        return ConfOk;
      }
      if d.keyword == LearningMode {
        learning := true;
        return ConfOk;
      }
      if d.keyword == BasicRule {
        if parsed.None? {
          return ConfError;
        }
        PushRule(parsed.value);
        return ConfOk;
      }
      if d.keyword == CheckRule {
        var accepted := PushCheckRule(d.args[0], d.args[1]);
        return if accepted then ConfOk else ConfError;
      }
      return ConfError;
    }

    /** The BasicRule branch of `ngx_http_dummy_read_conf`, once the rule has parsed. */
    method PushRule(rule: Rule)
      modifies this
      ensures State() == AddRule(old(State()), rule)
      ensures requestProcessed == old(requestProcessed) && requestBlocked == old(requestBlocked)
    {
      if rule.wlId != 0 {
        whitelistRules := whitelistRules + [rule];
      } else {
        var out := Classify(rule, RuleSets(headerRules, bodyRules, genericRules, getRules));
        headerRules, bodyRules, genericRules, getRules := out.header, out.body, out.generic, out.get;
      }
    }

    /**
      The CheckRule branch of `ngx_http_dummy_read_conf`: the zeroed entry is
      pushed first and then filled in place by the scanner.
    */
    method PushCheckRule(s: string, a: string) returns (accepted: bool)
      modifies this`checkRules
      ensures var p := CheckRules.CheckRuleSpec(s, a);
        checkRules == old(checkRules) + [p.entry] && accepted == p.accepted
    {
      checkRules := checkRules + [CheckRules.ZeroCheckRule];
      var p := CheckRules.ParseCheckRule(s, a);
      checkRules := checkRules[|checkRules| - 1 := p.entry];
      assert checkRules == old(checkRules) + [p.entry];
      accepted := p.accepted;
    }

    /** `ngx_http_dummy_merge_loc_conf`, with this object as the child. */
    method Merge(parent: LocConf)
      requires parent != this
      requires Valid() && parent.Valid()
      modifies this
      ensures Valid()
      ensures State() == MergeSpec(old(State()), old(parent.State()))
      ensures requestProcessed == old(requestProcessed) && requestBlocked == old(requestBlocked)
    {
      if whitelistRules == [] {
        whitelistRules := parent.whitelistRules;
      }
      if checkRules == [] {
        checkRules := parent.checkRules;
      }
      if bodyRules == [] {
        bodyRules := parent.bodyRules;
      }
      if headerRules == [] {
        headerRules := parent.headerRules;
      }
      if genericRules == [] {
        genericRules := parent.genericRules;
      }
    }
  }

  // ---------------------------------------------------------------------------
  // Properties of the location and main handlers
  // ---------------------------------------------------------------------------

  /**
    A location rule with a whitelist id is appended exactly once to the
    whitelist rules, whatever its target flags, and no target collection changes.
  */
  lemma WhitelistRouting(s: LocState, d: Directive, r: Rule)
    requires d.keyword == BasicRule && r.wlId != 0
    ensures var step := ReadConfSpec(s, d, Some(r));
      step.status == ConfOk && step.state.whitelist == s.whitelist + [r] &&
      step.state.sets == s.sets && step.state.checks == s.checks
  {
  }

  /**
    A location rule without a whitelist id leaves the whitelist alone; each
    target collection keeps its old contents and gains copies of the rule at
    its tail, and it gains at least one exactly when the rule targets it.
  */
  lemma TargetRouting(s: LocState, d: Directive, r: Rule, c: Collection)
    requires d.keyword == BasicRule && r.wlId == 0
    ensures var step := ReadConfSpec(s, d, Some(r));
      var before, after := Get(s.sets, c), Get(step.state.sets, c);
      && step.status == ConfOk
      && step.state.whitelist == s.whitelist
      && after == before + Repeat(r, Copies(r, c))
      && (|after| > |before| <==> Targets(r, c))
  {
    RouteReachesExactlyTargets(s.sets, r, c);
  }

  /**
    At main level the whitelist id plays no part: a rule carrying one still lands
    in every collection it targets, where the same rule given as a location
    BasicRule would leave that collection unchanged.
  */
  lemma MainRoutesWhitelistedRules(s: LocState, sets: RuleSets, r: Rule, c: Collection)
    requires r.wlId != 0 && Targets(r, c)
    ensures var main := ReadMainConfSpec(sets, Directive(MainRule, []), Some(r));
      main.status == ConfOk && |Get(main.sets, c)| > |Get(sets, c)| && r in Get(main.sets, c)
    ensures Get(ReadConfSpec(s, Directive(BasicRule, []), Some(r)).state.sets, c) == Get(s.sets, c)
  {
    RouteReachesExactlyTargets(sets, r, c);
    RouteAppendsCopies(sets, r, c);
    assert Get(Route(sets, r), c)[|Get(sets, c)|] == r;
  }

  /** The main-level handler accepts only MainRule directives whose rule parsed. */
  lemma MainRejects(sets: RuleSets, d: Directive, parsed: Option<Rule>)
    ensures var main := ReadMainConfSpec(sets, d, parsed);
      main.status == ConfOk <==> (d.keyword == MainRule && parsed.Some?)
    ensures var main := ReadMainConfSpec(sets, d, parsed);
      main.status == ConfError ==> main.sets == sets
  {
  }

  /**
    A rejected directive changes nothing but the registration flag, except that
    a rejected CheckRule leaves its partly filled entry appended. DeniedUrl with
    an empty argument and an unrecognised keyword are rejected.
  */
  lemma RejectedDirectives(s: LocState, d: Directive, parsed: Option<Rule>)
    requires HasArgs(d)
    ensures var step := ReadConfSpec(s, d, parsed);
      step.status == ConfError ==>
        if d.keyword == CheckRule then step.state == s.(pushed := true, checks := step.state.checks)
        else step.state == s.(pushed := true)
    ensures d.keyword == DeniedUrl && d.args[0] == [] ==> ReadConfSpec(s, d, parsed).status == ConfError
    ensures d.keyword.Unknown? || d.keyword == MainRule ==> ReadConfSpec(s, d, parsed).status == ConfError
    ensures d.keyword == BasicRule && parsed.None? ==> ReadConfSpec(s, d, parsed).status == ConfError
  {
  }

  /**
    A CheckRule directive always appends exactly one entry, accepted or not,
    and it is the entry the scanner produced; nothing else changes but the
    registration flag.
  */
  lemma CheckRuleAlwaysAppended(s: LocState, d: Directive)
    requires d.keyword == CheckRule && |d.args| >= 2
    ensures var step := ReadConfSpec(s, d, None);
      var p := CheckRules.CheckRuleSpec(d.args[0], d.args[1]);
      step.state == s.(pushed := true, checks := s.checks + [p.entry]) &&
      (step.status == ConfOk <==> p.accepted)
  {
  }

  /** The location invariant survives every directive. */
  lemma ReadConfKeepsSeparated(s: LocState, d: Directive, parsed: Option<Rule>)
    requires HasArgs(d) && Separated(s)
    ensures Separated(ReadConfSpec(s, d, parsed).state)
  {
    if d.keyword == BasicRule && parsed.Some? && parsed.value.wlId == 0 {
      var r := parsed.value;
      AddRuleTargets(s, r, HeaderRules);
      AddRuleTargets(s, r, BodyRules);
      AddRuleTargets(s, r, GenericRules);
      AddRuleTargets(s, r, GetRules);
    }
  }

  /** Routing a non-whitelist rule keeps every rule of collection `c` one that targets `c`. */
  lemma AddRuleTargets(s: LocState, r: Rule, c: Collection)
    requires r.wlId == 0 && AllTarget(Get(s.sets, c), c)
    ensures AllTarget(Get(AddRule(s, r).sets, c), c)
  {
    var before, after := Get(s.sets, c), Get(AddRule(s, r).sets, c);
    RouteAppendsCopies(s.sets, r, c);
    RouteReachesExactlyTargets(s.sets, r, c);
    forall x | x in after ensures x.wlId == 0 && Targets(x, c) {
      var j :| 0 <= j < |after| && after[j] == x;
      if j < |before| {
        assert after[..|before|][j] == x;
      }
    }
  }

  /** One configuration step: a directive with the rule parser's outcome for it. */
  datatype ConfInput = ConfInput(d: Directive, parsed: Option<Rule>)

  predicate AllHaveArgs(ins: seq<ConfInput>)
  {
    forall k :: 0 <= k < |ins| ==> HasArgs(ins[k].d)
  }

  /** The location after a run of directives. */
  function ReadAll(s: LocState, ins: seq<ConfInput>): LocState
    requires AllHaveArgs(ins)
    decreases |ins|
  {
    if ins == [] then s else ReadAll(ReadConfSpec(s, ins[0].d, ins[0].parsed).state, ins[1..])
  }

  /** How many directives of the run push the location onto the main configuration's list. */
  function Registrations(s: LocState, ins: seq<ConfInput>): nat
    requires AllHaveArgs(ins)
    decreases |ins|
  {
    if ins == [] then 0
    else (if s.pushed then 0 else 1) + Registrations(ReadConfSpec(s, ins[0].d, ins[0].parsed).state, ins[1..])
  }

  /**
    Whatever directives a location holds, it is registered with the main
    configuration once: on its first directive, unless it already was.
  */
  lemma {:induction false} RegisteredOnce(s: LocState, ins: seq<ConfInput>)
    requires AllHaveArgs(ins)
    ensures Registrations(s, ins) == if s.pushed || ins == [] then 0 else 1
    ensures ins != [] ==> ReadAll(s, ins).pushed
    decreases |ins|
  {
    if ins != [] {
      var t := ReadConfSpec(s, ins[0].d, ins[0].parsed).state;
      assert AllHaveArgs(ins[1..]) by {
        forall k | 0 <= k < |ins[1..]| ensures HasArgs(ins[1..][k].d) {
          assert ins[1..][k] == ins[k + 1];
        }
      }
      RegisteredOnce(t, ins[1..]);
    }
  }

  /** The location invariant holds after any run of directives from a fresh location. */
  lemma {:induction false} ReadAllKeepsSeparated(s: LocState, ins: seq<ConfInput>)
    requires AllHaveArgs(ins) && Separated(s)
    ensures Separated(ReadAll(s, ins))
    decreases |ins|
  {
    if ins != [] {
      ReadConfKeepsSeparated(s, ins[0].d, ins[0].parsed);
      assert AllHaveArgs(ins[1..]) by {
        forall k | 0 <= k < |ins[1..]| ensures HasArgs(ins[1..][k].d) {
          assert ins[1..][k] == ins[k + 1];
        }
      }
      ReadAllKeepsSeparated(ReadConfSpec(s, ins[0].d, ins[0].parsed).state, ins[1..]);
    }
  }

  // ---------------------------------------------------------------------------
  // Properties of the merge
  // ---------------------------------------------------------------------------

  /**
    Merging keeps the child's own non-empty collections, fills its empty ones
    from the parent, never touches its GET rules or flags, and doing it twice
    is the same as doing it once.
  */
  lemma MergeInherits(child: LocState, parent: LocState)
    ensures var m := MergeSpec(child, parent);
      && m.sets.get == child.sets.get
      && m.pushed == child.pushed && m.enabled == child.enabled
      && m.forceDisabled == child.forceDisabled && m.learning == child.learning
      && m.deniedUrl == child.deniedUrl
      && (forall c: Collection :: c != GetRules ==>
            Get(m.sets, c) == (if Get(child.sets, c) == [] then Get(parent.sets, c) else Get(child.sets, c)))
      && m.whitelist == (if child.whitelist == [] then parent.whitelist else child.whitelist)
      && m.checks == (if child.checks == [] then parent.checks else child.checks)
    ensures MergeSpec(MergeSpec(child, parent), parent) == MergeSpec(child, parent)
  {
  }

  /** Merging two locations that keep the invariant yields one that keeps it. */
  lemma MergeKeepsSeparated(child: LocState, parent: LocState)
    requires Separated(child) && Separated(parent)
    ensures Separated(MergeSpec(child, parent))
  {
  }
}
