/**
  Rules as produced by the (external) rule parser, and the routing of a rule
  into the target collections of a configuration scope.

  In naxsi_skeleton.c every push is a `memcpy` of the whole rule into the tail
  of an `ngx_array_t`, so a collection is modelled as a sequence that only
  grows at its end, and each push appends one more copy of the rule.
*/
module NaxsiRules {

  /** One entry of a rule's custom-location list: which kind of named variable it targets. */
  datatype CustomLocation = CustomLocation(argsVar: bool, bodyVar: bool, headersVar: bool)

  /**
    The fields of a parsed rule that the skeleton looks at. `id` stands for
    everything else the rule parser fills in (pattern, score, rule id, ...),
    which is copied along untouched.
  */
  datatype Rule = Rule(
    id: int,
    wlId: int,
    headers: bool,
    body: bool,
    bodyVar: bool,
    url: bool,
    args: bool,
    argsVar: bool,
    customLocation: bool,
    customLocations: seq<CustomLocation>)

  /** The three kinds of named variable a custom location can target. */
  datatype VarKind = ArgsVar | BodyVar | HeadersVar

  predicate Marks(l: CustomLocation, k: VarKind)
  {
    match k
    case ArgsVar => l.argsVar
    case BodyVar => l.bodyVar
    case HeadersVar => l.headersVar
  }

  /** Number of custom locations in `ls` that target kind `k`. */
  function CountMarked(ls: seq<CustomLocation>, k: VarKind): (n: nat)
    ensures n <= |ls|

  {
    if ls == [] then 0
    else CountMarked(ls[..|ls| - 1], k) + (if Marks(ls[|ls| - 1], k) then 1 else 0)
  }

  /** The four target collections a rule can be routed to. */
  datatype Collection = HeaderRules | BodyRules | GenericRules | GetRules

  function Bit(b: bool): nat
  {
    if b then 1 else 0
  }

  /** Copies contributed by the custom-location loop (only run when the custom-location flag is set). */
  function CustomCopies(r: Rule, k: VarKind): nat
  {
    if r.customLocation then CountMarked(r.customLocations, k) else 0
  }

  /** How many copies of `r` one classification pushes onto collection `c`. */
  function Copies(r: Rule, c: Collection): nat
  {
    match c
    case HeaderRules => Bit(r.headers) + CustomCopies(r, HeadersVar)
    case BodyRules => Bit(r.body || r.bodyVar) + CustomCopies(r, BodyVar)
    case GenericRules => Bit(r.url)
    case GetRules => Bit(r.args || r.argsVar) + CustomCopies(r, ArgsVar)
  }

  /**
    Independent statement of which collections a rule targets, in the words of
    its flags: a global flag, or at least one custom location of the matching
    kind (when the custom-location flag is set).
  */
  predicate Targets(r: Rule, c: Collection)
  {
    match c
    case HeaderRules =>
      r.headers || (r.customLocation && exists j :: 0 <= j < |r.customLocations| && r.customLocations[j].headersVar)
    case BodyRules =>
      r.body || r.bodyVar || (r.customLocation && exists j :: 0 <= j < |r.customLocations| && r.customLocations[j].bodyVar)
    case GenericRules =>
      r.url
    case GetRules =>
      r.args || r.argsVar || (r.customLocation && exists j :: 0 <= j < |r.customLocations| && r.customLocations[j].argsVar)
  }

  /** `n` copies of `r`. */
  function Repeat(r: Rule, n: nat): (s: seq<Rule>)
    ensures |s| == n
  {
    if n == 0 then [] else Repeat(r, n - 1) + [r]
  }

  lemma {:induction false} RepeatElements(r: Rule, n: nat)
    ensures forall j :: 0 <= j < n ==> Repeat(r, n)[j] == r
  {
    if n > 0 {
      RepeatElements(r, n - 1);
    }
  }

  /** The four target collections of one scope, NULL arrays being empty. */
  datatype RuleSets = RuleSets(header: seq<Rule>, body: seq<Rule>, generic: seq<Rule>, get: seq<Rule>)

  function EmptySets(): RuleSets
  {
    RuleSets([], [], [], [])
  }

  function Get(sets: RuleSets, c: Collection): seq<Rule>
  {
    match c
    case HeaderRules => sets.header
    case BodyRules => sets.body
    case GenericRules => sets.generic
    case GetRules => sets.get
  }

  /** The effect of classifying `r` into `sets`: each collection gets its copies at the tail. */
  function Route(sets: RuleSets, r: Rule): RuleSets
  {
    RuleSets(
      sets.header + Repeat(r, Copies(r, HeaderRules)),
      sets.body + Repeat(r, Copies(r, BodyRules)),
      sets.generic + Repeat(r, Copies(r, GenericRules)),
      sets.get + Repeat(r, Copies(r, GetRules)))
  }

  /**
    The push sequence of the non-whitelist branch: the global flags first
    (`headers`; `body` or `body_var`; `url`; `args_var` or `args`), then the
    custom-location loop when the custom-location flag is set.
  */
  method Classify(r: Rule, sets: RuleSets) returns (out: RuleSets)
    ensures out == Route(sets, r)
  {
    var header, body, generic, get := sets.header, sets.body, sets.generic, sets.get;
    AppendCopy(sets.header, r, 0);
    AppendCopy(sets.body, r, 0);
    AppendCopy(sets.generic, r, 0);
    AppendCopy(sets.get, r, 0);
    if r.headers {
      header := header + [r];
    }
    assert header == sets.header + Repeat(r, Bit(r.headers));
    if r.body || r.bodyVar {
      body := body + [r];
    }
    assert body == sets.body + Repeat(r, Bit(r.body || r.bodyVar));
    if r.url {
      generic := generic + [r];
    }
    assert generic == sets.generic + Repeat(r, Copies(r, GenericRules));
    if r.argsVar || r.args {
      get := get + [r];
    }
    assert get == sets.get + Repeat(r, Bit(r.args || r.argsVar));
    out := RuleSets(header, body, generic, get);
    if r.customLocation {
      var mid := out;
      out := PushCustomLocations(r, mid);
      ConcatRepeats(sets.header, r, Bit(r.headers), CountMarked(r.customLocations, HeadersVar));
      ConcatRepeats(sets.body, r, Bit(r.body || r.bodyVar), CountMarked(r.customLocations, BodyVar));
      ConcatRepeats(sets.get, r, Bit(r.args || r.argsVar), CountMarked(r.customLocations, ArgsVar));
    }
  }

  /**
    The custom-location loop: for every custom location in turn, a push onto
    the GET rules per `args_var`, onto the body rules per `body_var` and onto
    the header rules per `headers_var`.
  */
  method PushCustomLocations(r: Rule, sets: RuleSets) returns (out: RuleSets)
    ensures out.header == sets.header + Repeat(r, CountMarked(r.customLocations, HeadersVar))
    ensures out.body == sets.body + Repeat(r, CountMarked(r.customLocations, BodyVar))
    ensures out.generic == sets.generic
    ensures out.get == sets.get + Repeat(r, CountMarked(r.customLocations, ArgsVar))
  {
    var header, body, get := sets.header, sets.body, sets.get;
    ghost var nGet, nBody, nHeader := 0, 0, 0;
    AppendCopy(sets.get, r, 0);
    AppendCopy(sets.body, r, 0);
    AppendCopy(sets.header, r, 0);
    var locs := r.customLocations;
    var i := 0;
    while i < |locs|
      invariant 0 <= i <= |locs|
      invariant get == sets.get + Repeat(r, nGet)
      invariant body == sets.body + Repeat(r, nBody)
      invariant header == sets.header + Repeat(r, nHeader)
      invariant nGet == CountMarked(locs[..i], ArgsVar)
      invariant nBody == CountMarked(locs[..i], BodyVar)
      invariant nHeader == CountMarked(locs[..i], HeadersVar)
    {
      CountMarkedStep(locs, i);
      if locs[i].argsVar {
        AppendCopy(sets.get, r, nGet);
        get, nGet := get + [r], nGet + 1;
      }
      if locs[i].bodyVar {
        AppendCopy(sets.body, r, nBody);
        body, nBody := body + [r], nBody + 1;
      }
      if locs[i].headersVar {
        AppendCopy(sets.header, r, nHeader);
        header, nHeader := header + [r], nHeader + 1;
      }
      i := i + 1;
    }
    assert locs[..i] == locs;
    out := RuleSets(header, body, sets.generic, get);
  }

  /** Two runs of copies make one. */
  lemma {:induction false} ConcatRepeats(xs: seq<Rule>, r: Rule, a: nat, b: nat)
    ensures xs + Repeat(r, a) + Repeat(r, b) == xs + Repeat(r, a + b)
  {
    if b > 0 {
      ConcatRepeats(xs, r, a, b - 1);
      AppendCopy(xs, r, a + b - 1);
      assert xs + Repeat(r, a) + Repeat(r, b) == xs + Repeat(r, a) + Repeat(r, b - 1) + [r];
    }
  }

  /** One more push is one more copy at the tail. */
  lemma AppendCopy(xs: seq<Rule>, r: Rule, n: nat)
    ensures xs + Repeat(r, n) + [r] == xs + Repeat(r, n + 1)
    ensures xs + Repeat(r, 0) == xs
  {
  }

  /** Extending a prefix by one custom location adds its mark to each count. */
  lemma CountMarkedStep(ls: seq<CustomLocation>, i: nat)
    requires i < |ls|
    ensures CountMarked(ls[..i + 1], ArgsVar) == CountMarked(ls[..i], ArgsVar) + Bit(ls[i].argsVar)
    ensures CountMarked(ls[..i + 1], BodyVar) == CountMarked(ls[..i], BodyVar) + Bit(ls[i].bodyVar)
    ensures CountMarked(ls[..i + 1], HeadersVar) == CountMarked(ls[..i], HeadersVar) + Bit(ls[i].headersVar)
  {
    assert ls[..i + 1][..i] == ls[..i];
  }

  /** A positive count of marked custom locations means one of them is marked, and back. */
  lemma {:induction false} CountMarkedPositive(ls: seq<CustomLocation>, k: VarKind)
    ensures CountMarked(ls, k) > 0 <==> exists j :: 0 <= j < |ls| && Marks(ls[j], k)
  {
    if ls != [] {
      var p := ls[..|ls| - 1];
      CountMarkedPositive(p, k);
      assert forall j :: 0 <= j < |p| ==> p[j] == ls[j];
      if Marks(ls[|ls| - 1], k) {
        assert Marks(ls[|ls| - 1], k);
      }
    }
  }

  /**
    Exactly the targeted collections grow: collection `c` receives at least one
    copy of `r` if and only if `r` targets `c`; at most one copy comes from the
    global flags together (so `body` and `body_var` set at once push once) and
    at most one from each custom location.
  */
  lemma RouteReachesExactlyTargets(sets: RuleSets, r: Rule, c: Collection)
    ensures |Get(Route(sets, r), c)| > |Get(sets, c)| <==> Targets(r, c)
    ensures Copies(r, c) <= 1 + |r.customLocations|
    ensures c == GenericRules ==> Copies(r, c) <= 1
  {
    var ls := r.customLocations;
    match c
    case HeaderRules =>
      CountMarkedPositive(ls, HeadersVar);
      assert (exists j :: 0 <= j < |ls| && Marks(ls[j], HeadersVar)) <==> (exists j :: 0 <= j < |ls| && ls[j].headersVar);
    case BodyRules =>
      CountMarkedPositive(ls, BodyVar);
      assert (exists j :: 0 <= j < |ls| && Marks(ls[j], BodyVar)) <==> (exists j :: 0 <= j < |ls| && ls[j].bodyVar);
    case GenericRules =>
    case GetRules =>
      CountMarkedPositive(ls, ArgsVar);
      assert (exists j :: 0 <= j < |ls| && Marks(ls[j], ArgsVar)) <==> (exists j :: 0 <= j < |ls| && ls[j].argsVar);
  }

  /**
    Routing never deduplicates and never disturbs what was there: the old
    collection is a prefix of the new one, and every element after it is the
    rule itself.
  */
  lemma RouteAppendsCopies(sets: RuleSets, r: Rule, c: Collection)
    ensures var before, after := Get(sets, c), Get(Route(sets, r), c);
      |before| <= |after| && after[..|before|] == before &&
      forall j :: |before| <= j < |after| ==> after[j] == r
  {
    var before, after := Get(sets, c), Get(Route(sets, r), c);
    assert after == before + Repeat(r, Copies(r, c));
    assert after[..|before|] == before;
    RepeatElements(r, Copies(r, c));
  }
}
