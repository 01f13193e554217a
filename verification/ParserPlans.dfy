// Parser plans: the plan graph (apps/api/app/parser/models.py), the resolver (apps/api/app/parser/planning.py), the adapter
// registry (apps/api/app/parser/registry.py) and the executor with its fallbacks (apps/api/app/parser/executor.py).
module ParserPlans {
  import opened Options

  datatype FileKind = PlainText | Image | Pdf | OfficeDocument | Spreadsheet | Slide | Code | Unknown

  datatype Requirement =
    | WrapTextOnly | NativeParse | OcrRequired | NativeParseThenOcrFallback | MetadataOnlyRequired | UnsupportedInput | NotApplicable

  datatype PlanKind =
    | WrapText | NativeText | PdfNativeOcr | PdfNativeThenPageOcr | PdfNative | ImageOcr
    | OfficeParse | SpreadsheetParse | SlideParse | CodeParse | MetadataOnly | Unsupported

  datatype StepKind =
    | WrapTextStep | NativeTextExtract | PdfNativeOcrStep | PdfNativeTextExtract | PdfCoverageEvaluate
    | RenderOcrCandidatePages | OcrPrimary | OcrFallback | MergeBlocks
    | ImageOcrStep | OfficeParseStep | SpreadsheetParseStep | SlideParseStep | CodeParseStep

  datatype Trigger = AdapterUnavailable | AdapterInitializationFailed | StepFailed | NoTextDetected

  datatype PlanStep = PlanStep(stepId: string, ordinal: nat, kind: StepKind, capabilityId: string, fallback: bool)

  datatype FallbackRule = FallbackRule(ruleId: string, source: string, trigger: Trigger, target: string, ordinal: nat)

  datatype Plan = Plan(kind: PlanKind, steps: seq<PlanStep>, rules: seq<FallbackRule>)

  // ---------------------------------------------------------------- the plan graph

  ghost predicate DistinctIds(steps: seq<PlanStep>) {
    forall i, j :: 0 <= i < j < |steps| ==> steps[i].stepId != steps[j].stepId
  }

  ghost predicate DistinctRoutes(rules: seq<FallbackRule>) {
    forall i, j :: 0 <= i < j < |rules| ==> rules[i].source != rules[j].source || rules[i].trigger != rules[j].trigger
  }

  predicate HasStep(steps: seq<PlanStep>, id: string, fallback: bool) {
    exists i :: 0 <= i < |steps| && steps[i].stepId == id && steps[i].fallback == fallback
  }

  // Every rule leads from an always-step to a fallback step.
  predicate RuleJoins(steps: seq<PlanStep>, r: FallbackRule) {
    HasStep(steps, r.source, false) && HasStep(steps, r.target, true)
  }

  ghost predicate ValidPlan(p: Plan) {
    && (p.steps == [] ==> p.kind.MetadataOnly? || p.kind.Unsupported?)
    && (forall i :: 0 <= i < |p.steps| ==> p.steps[i].ordinal == i)
    && (forall i :: 0 <= i < |p.rules| ==> p.rules[i].ordinal == i)
    && DistinctIds(p.steps)
    && (forall i :: 0 <= i < |p.rules| ==> RuleJoins(p.steps, p.rules[i]))
    && DistinctRoutes(p.rules)
  }

  // The dictionary of the steps by id; a later step takes the place of an earlier one.
  function StepsById(steps: seq<PlanStep>): map<string, PlanStep> {
    if steps == [] then map[] else StepsById(steps[..|steps| - 1])[steps[|steps| - 1].stepId := steps[|steps| - 1]]
  }

  lemma {:induction false} StepsByIdFinds(steps: seq<PlanStep>, id: string)
    ensures id in StepsById(steps) <==> exists i :: 0 <= i < |steps| && steps[i].stepId == id
    ensures id in StepsById(steps) ==> StepsById(steps)[id] in steps && StepsById(steps)[id].stepId == id
    ensures |StepsById(steps)| <= |steps|
  {
    if steps != [] {
      var n := |steps| - 1;
      StepsByIdFinds(steps[..n], id);
      assert steps == steps[..n] + [steps[n]];
    }
  }

  lemma {:induction false} KeyOfUpdate(m: map<string, PlanStep>, id: string, s: PlanStep)
    ensures |m[id := s]| == if id in m then |m| else |m| + 1
  {
    assert m[id := s].Keys == m.Keys + {id};
  }

  // The source compares the size of the dictionary with the number of steps.
  lemma {:induction false} SizeMeansDistinct(steps: seq<PlanStep>)
    ensures |StepsById(steps)| == |steps| <==> DistinctIds(steps)
    ensures |StepsById(steps)| <= |steps|
  {
    if steps != [] {
      var n := |steps| - 1;
      SizeMeansDistinct(steps[..n]);
      StepsByIdFinds(steps[..n], steps[n].stepId);
      KeyOfUpdate(StepsById(steps[..n]), steps[n].stepId, steps[n]);
    }
  }

  lemma {:induction false} DistinctLookup(steps: seq<PlanStep>, id: string, fallback: bool)
    requires DistinctIds(steps)
    ensures HasStep(steps, id, fallback) <==> id in StepsById(steps) && StepsById(steps)[id].fallback == fallback
  {
    StepsByIdFinds(steps, id);
  }

  ghost predicate HasRoute(rules: seq<FallbackRule>, route: (string, Trigger)) {
    exists i :: 0 <= i < |rules| && (rules[i].source, rules[i].trigger) == route
  }

  lemma {:induction false} RoutesNext(rules: seq<FallbackRule>, next: FallbackRule)
    ensures forall route :: HasRoute(rules + [next], route) <==> HasRoute(rules, route) || route == (next.source, next.trigger)
    ensures DistinctRoutes(rules + [next]) <==> DistinctRoutes(rules) && !HasRoute(rules, (next.source, next.trigger))
  {
    var all := rules + [next];
    assert all[|rules|] == next && forall i :: 0 <= i < |rules| ==> all[i] == rules[i];
    forall route ensures HasRoute(all, route) <==> HasRoute(rules, route) || route == (next.source, next.trigger) {
      if HasRoute(rules, route) {
        var i :| 0 <= i < |rules| && (rules[i].source, rules[i].trigger) == route;
        assert (all[i].source, all[i].trigger) == route;
      }
    }
    if DistinctRoutes(all) {
      forall i | 0 <= i < |rules| ensures (rules[i].source, rules[i].trigger) != (next.source, next.trigger) {
        assert all[i].source != next.source || all[i].trigger != next.trigger;
      }
      forall i, j | 0 <= i < j < |rules| ensures rules[i].source != rules[j].source || rules[i].trigger != rules[j].trigger {
        assert all[i] == rules[i] && all[j] == rules[j];
      }
    }
  }

  lemma {:induction false} RepeatedRoute(rules: seq<FallbackRule>, n: nat)
    requires n <= |rules| && !DistinctRoutes(rules[..n])
    ensures !DistinctRoutes(rules)
  {
    assert forall i :: 0 <= i < n ==> rules[..n][i] == rules[i];
  }

  // One rule against the steps.
  method RuleFits(steps: seq<PlanStep>, rule: FallbackRule) returns (fits: bool)
    requires DistinctIds(steps)
    ensures fits <==> RuleJoins(steps, rule)
  {
    var stepsById := StepsById(steps);
    DistinctLookup(steps, rule.source, false);
    DistinctLookup(steps, rule.target, true);
    if rule.source !in stepsById || stepsById[rule.source].fallback {
      return false;
    }
    if rule.target !in stepsById || !stepsById[rule.target].fallback {
      return false;
    }
    return true;
  }

  method ValidateFallbackGraph(steps: seq<PlanStep>, rules: seq<FallbackRule>) returns (ok: bool)
    requires DistinctIds(steps)
    ensures ok <==> (forall i :: 0 <= i < |rules| ==> RuleJoins(steps, rules[i])) && DistinctRoutes(rules)
  {
    var routes: set<(string, Trigger)> := {};
    for n := 0 to |rules|
      invariant forall i :: 0 <= i < n ==> RuleJoins(steps, rules[i])
      invariant DistinctRoutes(rules[..n])
      invariant forall route :: route in routes <==> HasRoute(rules[..n], route)
    {
      var rule := rules[n];
      var fits := RuleFits(steps, rule);
      if !fits {
        return false;
      }
      assert rules[..n + 1] == rules[..n] + [rule];
      RoutesNext(rules[..n], rule);
      if (rule.source, rule.trigger) in routes {
        RepeatedRoute(rules, n + 1);
        return false;
      }
      routes := routes + {(rule.source, rule.trigger)};
    }
    assert rules[..|rules|] == rules;
    return true;
  }

  // Accepts exactly the valid plans.
  method ValidatePlanGraph(p: Plan) returns (ok: bool)
    ensures ok <==> ValidPlan(p)
  {
    if p.steps == [] && !p.kind.MetadataOnly? && !p.kind.Unsupported? {
      return false;
    }
    if exists i :: 0 <= i < |p.steps| && p.steps[i].ordinal != i {
      return false;
    }
    if exists i :: 0 <= i < |p.rules| && p.rules[i].ordinal != i {
      return false;
    }
    SizeMeansDistinct(p.steps);
    if |StepsById(p.steps)| != |p.steps| {
      return false;
    }
    ok := ValidateFallbackGraph(p.steps, p.rules);
  }

  // ---------------------------------------------------------------- registry

  datatype Capability = Capability(id: string, stepKinds: seq<StepKind>, enabled: bool, licenseAllowed: bool)

  // The adapter is known by its name.
  datatype Registration = Registration(capability: Capability, adapter: nat)

  datatype FailureCode =
    | UnsupportedFileKind | ParserDisabled | OcrDisabled | LicensePolicyViolation | ParserWorkerFailed | AdapterFailure(code: string)

  datatype Resolved = Adapter(adapter: nat) | Refused(failure: FailureCode)

  type Registry = map<string, Registration>

  ghost predicate DistinctCapabilities(registrations: seq<Registration>) {
    forall i, j :: 0 <= i < j < |registrations| ==> registrations[i].capability.id != registrations[j].capability.id
  }

  ghost predicate Registers(registry: Registry, registrations: seq<Registration>) {
    && (forall i :: 0 <= i < |registrations| ==>
          registrations[i].capability.id in registry && registry[registrations[i].capability.id] == registrations[i])
    && (forall id :: id in registry ==> registry[id] in registrations)
  }

  // The constructor refuses exactly the lists with a repeated capability id, and otherwise registers all of the list.
  method BuildRegistry(registrations: seq<Registration>) returns (r: Option<Registry>)
    ensures r.Some? <==> DistinctCapabilities(registrations)
    ensures r.Some? ==> Registers(r.value, registrations)
  {
    var registry: Registry := map[];
    for n := 0 to |registrations|
      invariant DistinctCapabilities(registrations[..n])
      invariant Registers(registry, registrations[..n])
      invariant forall id :: id in registry ==> registry[id].capability.id == id
    {
      var id := registrations[n].capability.id;
      if id in registry {
        var twin :| 0 <= twin < n && registrations[twin] == registry[id];
        return None;
      }
      registry := registry[id := registrations[n]];
    }
    assert registrations[..|registrations|] == registrations;
    return Some(registry);
  }

  function ResolveAdapter(registry: Registry, capabilityId: string, kind: StepKind): Resolved {
    if capabilityId !in registry || kind !in registry[capabilityId].capability.stepKinds then Refused(UnsupportedFileKind)
    else if !registry[capabilityId].capability.enabled then Refused(ParserDisabled)
    else if !registry[capabilityId].capability.licenseAllowed then Refused(LicensePolicyViolation)
    else Adapter(registry[capabilityId].adapter)
  }

  // ---------------------------------------------------------------- resolver

  datatype StepDefinition = StepDefinition(stepId: string, kind: StepKind, fallback: bool)

  datatype RuleDefinition = RuleDefinition(ruleId: string, source: string, trigger: Trigger, target: string)

  function PlanSteps(kind: PlanKind): seq<StepDefinition> {
    match kind
    case WrapText => [StepDefinition("wrap-text", WrapTextStep, false)]
    case NativeText => [StepDefinition("native-text", NativeTextExtract, false)]
    case PdfNativeOcr => [StepDefinition("pdf-native-ocr", PdfNativeOcrStep, false)]
    case PdfNativeThenPageOcr =>
      [StepDefinition("pdf-native", PdfNativeTextExtract, false),
       StepDefinition("pdf-coverage", PdfCoverageEvaluate, false),
       StepDefinition("pdf-render", RenderOcrCandidatePages, false),
       StepDefinition("ocr-primary", OcrPrimary, false),
       StepDefinition("ocr-fallback", OcrFallback, true),
       StepDefinition("merge-blocks", MergeBlocks, false)]
    case PdfNative => [StepDefinition("pdf-native", PdfNativeTextExtract, false)]
    case ImageOcr =>
      [StepDefinition("image-ocr-primary", ImageOcrStep, false), StepDefinition("image-ocr-fallback", OcrFallback, true)]
    case OfficeParse => [StepDefinition("office-parse", OfficeParseStep, false)]
    case SpreadsheetParse => [StepDefinition("spreadsheet-parse", SpreadsheetParseStep, false)]
    case SlideParse => [StepDefinition("slide-parse", SlideParseStep, false)]
    case CodeParse => [StepDefinition("code-parse", CodeParseStep, false)]
    case MetadataOnly => []
    case Unsupported => []
  }

  function PlanRules(kind: PlanKind): seq<RuleDefinition> {
    match kind
    case PdfNativeThenPageOcr =>
      [RuleDefinition("ocr-unavailable", "ocr-primary", AdapterUnavailable, "ocr-fallback"),
       RuleDefinition("ocr-init-failed", "ocr-primary", AdapterInitializationFailed, "ocr-fallback")]
    case ImageOcr =>
      [RuleDefinition("image-ocr-unavailable", "image-ocr-primary", AdapterUnavailable, "image-ocr-fallback"),
       RuleDefinition("image-ocr-init-failed", "image-ocr-primary", AdapterInitializationFailed, "image-ocr-fallback")]
    case _ => []
  }

  datatype PlanRequest = PlanRequest(fileKind: Option<FileKind>, requirement: Requirement, enableNativeParsing: bool,
                                     enableOcr: bool, capabilities: seq<Capability>, denied: set<string>)

  datatype Resolution = Planned(plan: Plan) | Rejected(failure: FailureCode)

  function PlanKindOf(r: PlanRequest): PlanKind {
    match r.requirement
    case MetadataOnlyRequired => MetadataOnly
    case UnsupportedInput => Unsupported
    case NotApplicable => Unsupported
    case WrapTextOnly => WrapText
    case _ =>
      match r.fileKind
      case None => Unsupported
      case Some(Unknown) => Unsupported
      case Some(PlainText) => NativeText
      case Some(Pdf) => PdfNativeThenPageOcr
      case Some(Image) => ImageOcr
      case Some(OfficeDocument) => OfficeParse
      case Some(Spreadsheet) => SpreadsheetParse
      case Some(Slide) => SlideParse
      case Some(Code) => CodeParse
  }

  // The dictionary of enabled capabilities by step kind; a later capability takes the place of an earlier one.
  function CapabilityFor(capabilities: seq<Capability>, kind: StepKind): Option<Capability> {
    if capabilities == [] then None
    else
      var last := capabilities[|capabilities| - 1];
      if last.enabled && kind in last.stepKinds then Some(last)
      else CapabilityFor(capabilities[..|capabilities| - 1], kind)
  }

  predicate Available(r: PlanRequest, kind: StepKind) {
    CapabilityFor(r.capabilities, kind).Some?
  }

  predicate ShouldUsePdfNativeOnly(r: PlanRequest) {
    if r.fileKind != Some(Pdf) || !Available(r, PdfNativeTextExtract) then false
    else if !r.enableOcr then true
    else
      var steps := PlanSteps(PdfNativeThenPageOcr);
      exists i :: 0 <= i < |steps| && !Available(r, steps[i].kind)
  }

  function SelectAvailablePlanKind(r: PlanRequest, kind: PlanKind): PlanKind {
    if kind.PdfNativeThenPageOcr? && Available(r, PdfNativeOcrStep) then PdfNativeOcr
    else if kind.PdfNativeThenPageOcr? && ShouldUsePdfNativeOnly(r) then PdfNative
    else kind
  }

  // The first step without a capability, or with a denied one.
  function FirstObstacle(r: PlanRequest, definitions: seq<StepDefinition>): Option<FailureCode> {
    if definitions == [] then None
    else
      var capability := CapabilityFor(r.capabilities, definitions[0].kind);
      if capability.None? then Some(UnsupportedFileKind)
      else if capability.value.id in r.denied then Some(LicensePolicyViolation)
      else FirstObstacle(r, definitions[1..])
  }

  predicate Unobstructed(r: PlanRequest, d: StepDefinition) {
    Available(r, d.kind) && CapabilityFor(r.capabilities, d.kind).value.id !in r.denied
  }

  lemma {:induction false} NoObstacle(r: PlanRequest, definitions: seq<StepDefinition>)
    ensures FirstObstacle(r, definitions).None? <==> forall i :: 0 <= i < |definitions| ==> Unobstructed(r, definitions[i])
  {
    if definitions != [] {
      NoObstacle(r, definitions[1..]);
      if !FirstObstacle(r, definitions).None? && Unobstructed(r, definitions[0]) {
        var i :| 0 <= i < |definitions[1..]| && !Unobstructed(r, definitions[1..][i]);
        assert !Unobstructed(r, definitions[i + 1]);
      }
    }
  }

  function StepsFor(r: PlanRequest, definitions: seq<StepDefinition>): (steps: seq<PlanStep>)
    requires forall i :: 0 <= i < |definitions| ==> Unobstructed(r, definitions[i])
    ensures |steps| == |definitions|
  {
    seq(|definitions|, i requires 0 <= i < |definitions| && Unobstructed(r, definitions[i]) =>
      PlanStep(definitions[i].stepId, i, definitions[i].kind, CapabilityFor(r.capabilities, definitions[i].kind).value.id,
               definitions[i].fallback))
  }

  function RulesFor(definitions: seq<RuleDefinition>): (rules: seq<FallbackRule>)
    ensures |rules| == |definitions|
  {
    seq(|definitions|, i requires 0 <= i < |definitions| =>
      FallbackRule(definitions[i].ruleId, definitions[i].source, definitions[i].trigger, definitions[i].target, i))
  }

  function ResolvePlan(r: PlanRequest): Resolution {
    var first := PlanKindOf(r);
    if first.MetadataOnly? || first.Unsupported? then Planned(Plan(first, [], []))
    else
      var kind := SelectAvailablePlanKind(r, first);
      if !r.enableNativeParsing && !kind.ImageOcr? then Rejected(ParserDisabled)
      else if !r.enableOcr && (kind.ImageOcr? || kind.PdfNativeThenPageOcr?) then Rejected(OcrDisabled)
      else
        var obstacle := FirstObstacle(r, PlanSteps(kind));
        if obstacle.Some? then Rejected(obstacle.value)
        else
          NoObstacle(r, PlanSteps(kind));
          Planned(Plan(kind, StepsFor(r, PlanSteps(kind)), RulesFor(PlanRules(kind))))
  }

  // ---------------------------------------------------------------- what the resolver promises

  ghost predicate DefinitionsJoin(steps: seq<StepDefinition>, rules: seq<RuleDefinition>) {
    && (forall i, j :: 0 <= i < j < |steps| ==> steps[i].stepId != steps[j].stepId)
    && (forall i, j :: 0 <= i < j < |rules| ==> rules[i].source != rules[j].source || rules[i].trigger != rules[j].trigger)
    && (forall k :: 0 <= k < |rules| ==> DefinitionJoins(steps, rules[k]))
  }

  ghost predicate DefinitionJoins(steps: seq<StepDefinition>, r: RuleDefinition) {
    && (exists i :: 0 <= i < |steps| && steps[i].stepId == r.source && !steps[i].fallback)
    && (exists i :: 0 <= i < |steps| && steps[i].stepId == r.target && steps[i].fallback)
  }

  lemma {:induction false} TablesJoin(kind: PlanKind)
    ensures DefinitionsJoin(PlanSteps(kind), PlanRules(kind))
  {
    var steps := PlanSteps(kind);
    if kind.PdfNativeThenPageOcr? {
      assert steps[3].stepId == "ocr-primary" && steps[4].stepId == "ocr-fallback";
    } else if kind.ImageOcr? {
      assert steps[0].stepId == "image-ocr-primary" && steps[1].stepId == "image-ocr-fallback";
    }
  }

  // Whatever the request, a plan that the resolver returns passes the validation of the plan graph.
  lemma {:induction false} PlansAreValid(r: PlanRequest)
    requires ResolvePlan(r).Planned?
    ensures ValidPlan(ResolvePlan(r).plan)
  {
    var p := ResolvePlan(r).plan;
    TablesJoin(p.kind);
    if p.steps != [] {
      var steps, rules := PlanSteps(p.kind), PlanRules(p.kind);
      NoObstacle(r, steps);
      assert p.steps == StepsFor(r, steps) && p.rules == RulesFor(rules);
      forall k | 0 <= k < |p.rules| ensures RuleJoins(p.steps, p.rules[k]) {
        assert DefinitionJoins(steps, rules[k]);
        var i :| 0 <= i < |steps| && steps[i].stepId == rules[k].source && !steps[i].fallback;
        var j :| 0 <= j < |steps| && steps[j].stepId == rules[k].target && steps[j].fallback;
        assert p.steps[i].stepId == p.rules[k].source && p.steps[j].stepId == p.rules[k].target;
      }
    }
  }

  lemma {:induction false} CapabilityForIsEnabled(capabilities: seq<Capability>, kind: StepKind)
    ensures var c := CapabilityFor(capabilities, kind);
            if c.Some? then c.value in capabilities && c.value.enabled && kind in c.value.stepKinds
            else forall i :: 0 <= i < |capabilities| ==> !(capabilities[i].enabled && kind in capabilities[i].stepKinds)
  {
    if capabilities != [] {
      CapabilityForIsEnabled(capabilities[..|capabilities| - 1], kind);
    }
  }

  // An enabled capability does steps of this kind.
  predicate Offered(r: PlanRequest, kind: StepKind) {
    exists i :: 0 <= i < |r.capabilities| && r.capabilities[i].enabled && kind in r.capabilities[i].stepKinds
  }

  lemma {:induction false} AvailableIsOffered(r: PlanRequest, kind: StepKind)
    ensures Available(r, kind) <==> Offered(r, kind)
  {
    CapabilityForIsEnabled(r.capabilities, kind);
    var c := CapabilityFor(r.capabilities, kind);
    if c.Some? {
      var i :| 0 <= i < |r.capabilities| && r.capabilities[i] == c.value;
      assert Offered(r, kind);
    }
  }

  // The chosen capability is the last one in the list that is enabled and does the step.
  lemma {:induction false} LastIsChosen(capabilities: seq<Capability>, kind: StepKind, i: nat)
    requires i < |capabilities| && capabilities[i].enabled && kind in capabilities[i].stepKinds
    requires forall j :: i < j < |capabilities| ==> !(capabilities[j].enabled && kind in capabilities[j].stepKinds)
    ensures CapabilityFor(capabilities, kind) == Some(capabilities[i])
  {
    if i < |capabilities| - 1 { LastIsChosen(capabilities[..|capabilities| - 1], kind, i); }
  }

  predicate PageOcrOffered(r: PlanRequest) {
    && Offered(r, PdfNativeTextExtract) && Offered(r, PdfCoverageEvaluate) && Offered(r, RenderOcrCandidatePages)
    && Offered(r, OcrPrimary) && Offered(r, OcrFallback) && Offered(r, MergeBlocks)
  }

  // The step kinds that a request asks for, each with whether it is a fallback.
  function Wanted(r: PlanRequest): seq<(StepKind, bool)> {
    if r.requirement == MetadataOnlyRequired || r.requirement == UnsupportedInput || r.requirement == NotApplicable then []
    else if r.requirement == WrapTextOnly then [(WrapTextStep, false)]
    else if r.fileKind == None || r.fileKind == Some(Unknown) then []
    else
      match r.fileKind.value
      case PlainText => [(NativeTextExtract, false)]
      case Image => [(ImageOcrStep, false), (OcrFallback, true)]
      case OfficeDocument => [(OfficeParseStep, false)]
      case Spreadsheet => [(SpreadsheetParseStep, false)]
      case Slide => [(SlideParseStep, false)]
      case Code => [(CodeParseStep, false)]
      case Pdf =>
        if Offered(r, PdfNativeOcrStep) then [(PdfNativeOcrStep, false)]
        else if Offered(r, PdfNativeTextExtract) && !(r.enableOcr && PageOcrOffered(r)) then [(PdfNativeTextExtract, false)]
        else [(PdfNativeTextExtract, false), (PdfCoverageEvaluate, false), (RenderOcrCandidatePages, false),
              (OcrPrimary, false), (OcrFallback, true), (MergeBlocks, false)]
      case Unknown => []
  }

  function ShapeOf(steps: seq<PlanStep>): seq<(StepKind, bool)> {
    seq(|steps|, i requires 0 <= i < |steps| => (steps[i].kind, steps[i].fallback))
  }

  function DefinedShape(steps: seq<StepDefinition>): seq<(StepKind, bool)> {
    seq(|steps|, i requires 0 <= i < |steps| => (steps[i].kind, steps[i].fallback))
  }

  lemma {:induction false} PageOcrMissing(r: PlanRequest)
    ensures PageOcrOffered(r) <==> forall i :: 0 <= i < |PlanSteps(PdfNativeThenPageOcr)| ==> Available(r, PlanSteps(PdfNativeThenPageOcr)[i].kind)
  {
    var steps := PlanSteps(PdfNativeThenPageOcr);
    forall i | 0 <= i < |steps| ensures Available(r, steps[i].kind) <==> Offered(r, steps[i].kind) {
      AvailableIsOffered(r, steps[i].kind);
    }
    assert |steps| == 6;
    assert steps[0].kind == PdfNativeTextExtract && steps[1].kind == PdfCoverageEvaluate && steps[2].kind == RenderOcrCandidatePages;
    assert steps[3].kind == OcrPrimary && steps[4].kind == OcrFallback && steps[5].kind == MergeBlocks;
  }

  lemma {:induction false} WantedPdf(r: PlanRequest)
    requires r.requirement in {NativeParse, OcrRequired, NativeParseThenOcrFallback} && r.fileKind == Some(Pdf)
    ensures DefinedShape(PlanSteps(SelectAvailablePlanKind(r, PlanKindOf(r)))) == Wanted(r)
  {
    AvailableIsOffered(r, PdfNativeOcrStep);
    AvailableIsOffered(r, PdfNativeTextExtract);
    PageOcrMissing(r);
  }

  lemma {:induction false} WantedOthers(r: PlanRequest)
    requires !(r.requirement in {NativeParse, OcrRequired, NativeParseThenOcrFallback} && r.fileKind == Some(Pdf))
    ensures DefinedShape(PlanSteps(SelectAvailablePlanKind(r, PlanKindOf(r)))) == Wanted(r)
  {
    assert SelectAvailablePlanKind(r, PlanKindOf(r)) == PlanKindOf(r);
  }

  // Every plan has the steps that its request asks for, each with a capability that is enabled, does the step and is not denied.
  lemma {:induction false} PlanIsWanted(r: PlanRequest)
    requires ResolvePlan(r).Planned?
    ensures var p := ResolvePlan(r).plan;
            && ShapeOf(p.steps) == Wanted(r)
            && (forall i :: 0 <= i < |p.steps| ==> p.steps[i].capabilityId !in r.denied && StepOffered(r, p.steps[i]))
  {
    var p, kind := ResolvePlan(r).plan, SelectAvailablePlanKind(r, PlanKindOf(r));
    ShapeIsWanted(r);
    NoObstacle(r, PlanSteps(kind));
    assert PlanSteps(kind) == [] ==> p.steps == [];
    forall i | 0 <= i < |p.steps| ensures p.steps[i].capabilityId !in r.denied && StepOffered(r, p.steps[i]) {
      assert Unobstructed(r, PlanSteps(kind)[i]);
      CapabilityForIsEnabled(r.capabilities, p.steps[i].kind);
      var c := CapabilityFor(r.capabilities, p.steps[i].kind);
      var j :| 0 <= j < |r.capabilities| && r.capabilities[j] == c.value;
      assert StepOffered(r, p.steps[i]);
    }
    assert ShapeOf(p.steps) == DefinedShape(PlanSteps(kind));
  }

  predicate StepOffered(r: PlanRequest, step: PlanStep) {
    exists j :: 0 <= j < |r.capabilities| && r.capabilities[j].enabled && step.kind in r.capabilities[j].stepKinds
      && r.capabilities[j].id == step.capabilityId
  }

  lemma {:induction false} ShapeIsWanted(r: PlanRequest)
    ensures DefinedShape(PlanSteps(SelectAvailablePlanKind(r, PlanKindOf(r)))) == Wanted(r)
  {
    if r.requirement in {NativeParse, OcrRequired, NativeParseThenOcrFallback} && r.fileKind == Some(Pdf) {
      WantedPdf(r);
    } else {
      WantedOthers(r);
    }
  }

  // The chosen capability for the step exists and is not denied.
  predicate Allowed(r: PlanRequest, kind: StepKind) {
    var c := CapabilityFor(r.capabilities, kind);
    c.Some? && c.value.id !in r.denied
  }

  // Which failure a request is refused with: parsing switched off, OCR switched off, or the first step that is not allowed.
  predicate RefusedWith(r: PlanRequest, failure: FailureCode) {
    var wanted := Wanted(r);
    && wanted != []
    && if !r.enableNativeParsing && wanted[0].0 != ImageOcrStep then failure == ParserDisabled
       else if !r.enableOcr && (OcrFallback, true) in wanted then failure == OcrDisabled
       else exists i :: 0 <= i < |wanted| && FirstNotAllowed(r, wanted, i)
              && failure == if Offered(r, wanted[i].0) then LicensePolicyViolation else UnsupportedFileKind
  }

  predicate FirstNotAllowed(r: PlanRequest, wanted: seq<(StepKind, bool)>, i: nat)
    requires i < |wanted|
  {
    !Allowed(r, wanted[i].0) && forall j :: 0 <= j < i ==> Allowed(r, wanted[j].0)
  }

  lemma {:induction false} ObstacleIsFirst(r: PlanRequest, definitions: seq<StepDefinition>) returns (i: nat)
    requires FirstObstacle(r, definitions).Some?
    ensures i < |definitions| && FirstNotAllowed(r, DefinedShape(definitions), i)
    ensures FirstObstacle(r, definitions).value
            == if Offered(r, DefinedShape(definitions)[i].0) then LicensePolicyViolation else UnsupportedFileKind
  {
    AvailableIsOffered(r, definitions[0].kind);
    if Allowed(r, definitions[0].kind) {
      i := ObstacleIsFirst(r, definitions[1..]);
      var shape, rest := DefinedShape(definitions), DefinedShape(definitions[1..]);
      assert rest == shape[1..];
      forall j | 0 <= j < i + 1 ensures Allowed(r, shape[j].0) {
        if j > 0 { assert Allowed(r, rest[j - 1].0); }
      }
      i := i + 1;
    } else {
      i := 0;
    }
  }

  lemma {:induction false} FallbackWanted(kind: PlanKind)
    ensures (OcrFallback, true) in DefinedShape(PlanSteps(kind)) <==> kind.PdfNativeThenPageOcr? || kind.ImageOcr?
    ensures DefinedShape(PlanSteps(kind)) == [] <==> kind.MetadataOnly? || kind.Unsupported?
    ensures DefinedShape(PlanSteps(kind)) != [] ==> (DefinedShape(PlanSteps(kind))[0].0 == ImageOcrStep <==> kind.ImageOcr?)
  {
    var shape := DefinedShape(PlanSteps(kind));
    if kind.PdfNativeThenPageOcr? {
      assert shape[4] == (OcrFallback, true);
    } else if kind.ImageOcr? {
      assert shape[1] == (OcrFallback, true);
    }
  }

  // A request is refused only for the reason given.
  lemma {:induction false} RefusedForReason(r: PlanRequest)
    requires ResolvePlan(r).Rejected?
    ensures RefusedWith(r, ResolvePlan(r).failure)
  {
    var kind := SelectAvailablePlanKind(r, PlanKindOf(r));
    ShapeIsWanted(r);
    FallbackWanted(kind);
    FallbackWanted(PlanKindOf(r));
    if FirstObstacle(r, PlanSteps(kind)).Some? {
      var i := ObstacleIsFirst(r, PlanSteps(kind));
    }
  }

  // ... and always when there is one.
  lemma {:induction false} ReasonMeansRefused(r: PlanRequest, failure: FailureCode)
    requires RefusedWith(r, failure)
    ensures ResolvePlan(r) == Rejected(failure)
  {
    var kind, wanted := SelectAvailablePlanKind(r, PlanKindOf(r)), Wanted(r);
    ShapeIsWanted(r);
    FallbackWanted(kind);
    if !(!r.enableNativeParsing && wanted[0].0 != ImageOcrStep) && !(!r.enableOcr && (OcrFallback, true) in wanted) {
      var i :| 0 <= i < |wanted| && FirstNotAllowed(r, wanted, i)
        && failure == if Offered(r, wanted[i].0) then LicensePolicyViolation else UnsupportedFileKind;
      NoObstacle(r, PlanSteps(kind));
      assert !Unobstructed(r, PlanSteps(kind)[i]);
      var k := ObstacleIsFirst(r, PlanSteps(kind));
      assert k == i;
    }
  }

  // A fallback step stands in for the OCR step before it when that one's adapter is missing or does not start.
  lemma {:induction false} FallbacksAreForOcr(r: PlanRequest, k: nat) returns (i: nat, j: nat)
    requires ResolvePlan(r).Planned? && k < |ResolvePlan(r).plan.rules|
    ensures var p := ResolvePlan(r).plan;
            && i < j < |p.steps| && p.steps[i].stepId == p.rules[k].source && p.steps[j].stepId == p.rules[k].target
            && (p.steps[i].kind == OcrPrimary || p.steps[i].kind == ImageOcrStep) && p.steps[j].kind == OcrFallback
            && |p.rules| == 2 && p.rules[k].trigger == if k == 0 then AdapterUnavailable else AdapterInitializationFailed
  {
    var p := ResolvePlan(r).plan;
    NoObstacle(r, PlanSteps(p.kind));
    if p.kind.PdfNativeThenPageOcr? { i, j := 3, 4; } else { i, j := 0, 1; }
  }

  // The detours for PDF files leave no gap: as soon as native text extraction is available, with no capability denied, a
  // PDF gets a plan, whatever of OCR is missing or switched off.
  lemma {:induction false} PdfAlwaysPlanned(r: PlanRequest)
    requires r.requirement in {NativeParse, OcrRequired, NativeParseThenOcrFallback} && r.fileKind == Some(Pdf)
    requires r.enableNativeParsing && Available(r, PdfNativeTextExtract)
    requires forall i :: 0 <= i < |r.capabilities| ==> r.capabilities[i].id !in r.denied
    ensures ResolvePlan(r).Planned?
  {
    var kind := SelectAvailablePlanKind(r, PdfNativeThenPageOcr);
    var steps := PlanSteps(kind);
    forall i | 0 <= i < |steps| ensures Unobstructed(r, steps[i]) {
      assert kind.PdfNativeThenPageOcr? ==> Available(r, PlanSteps(PdfNativeThenPageOcr)[i].kind);
      CapabilityForIsEnabled(r.capabilities, steps[i].kind);
    }
    NoObstacle(r, steps);
  }

  ghost predicate SharedWith(r: PlanRequest, registrations: seq<Registration>) {
    |r.capabilities| == |registrations| && forall i :: 0 <= i < |registrations| ==> r.capabilities[i] == registrations[i].capability
  }

  // When resolver and registry share their registrations, the registry refuses a step of a resolved plan exactly when the
  // chosen capability is not licensed; it is never missing, never of the wrong kind and never disabled.
  lemma {:induction false} LookupSucceeds(r: PlanRequest, registrations: seq<Registration>, registry: Registry, k: nat)
    requires ResolvePlan(r).Planned? && k < |ResolvePlan(r).plan.steps|
    requires SharedWith(r, registrations) && Registers(registry, registrations)
    ensures var step := ResolvePlan(r).plan.steps[k];
            && step.capabilityId in registry && step.capabilityId !in r.denied
            && ResolveAdapter(registry, step.capabilityId, step.kind)
               == if registry[step.capabilityId].capability.licenseAllowed then Adapter(registry[step.capabilityId].adapter)
                  else Refused(LicensePolicyViolation)
  {
    var p := ResolvePlan(r).plan;
    var steps := PlanSteps(p.kind);
    NoObstacle(r, steps);
    assert p.steps == StepsFor(r, steps) && Unobstructed(r, steps[k]);
    CapabilityForIsEnabled(r.capabilities, steps[k].kind);
    var c := CapabilityFor(r.capabilities, steps[k].kind).value;
    var i :| 0 <= i < |r.capabilities| && r.capabilities[i] == c;
    assert registry[registrations[i].capability.id] == registrations[i];
  }

  // ---------------------------------------------------------------- executor

  datatype StepStatus = Success | Partial | Failed | Skipped

  datatype StepResult = StepResult(status: StepStatus, trigger: Option<Trigger>, document: Option<nat>, failure: Option<FailureCode>)

  // A call of a step: a result, a ParserBoundaryError (also the registry's refusal), or any other exception.
  datatype Outcome = Ran(result: StepResult) | Boundary(failure: FailureCode) | Raised

  // What the adapters do may depend on the adapter, on how many calls came before, and on the step.
  type Adapters = (nat, nat, PlanStep) -> Outcome

  datatype Entry = Entry(step: PlanStep, outcome: Outcome)

  datatype FileStatus = Parsed | PartiallyParsed | ParseFailed

  datatype FileResult = FileResult(document: Option<nat>, status: FileStatus, failure: Option<FailureCode>)

  function CallStep(registry: Registry, adapters: Adapters, calls: nat, step: PlanStep): Outcome {
    match ResolveAdapter(registry, step.capabilityId, step.kind)
    case Refused(failure) => Boundary(failure)
    case Adapter(adapter) => adapters(adapter, calls, step)
  }

  function FindRule(rules: seq<FallbackRule>, source: string, trigger: Option<Trigger>): (r: Option<FallbackRule>)
    ensures r.Some? ==> r.value in rules && r.value.source == source && Some(r.value.trigger) == trigger
    ensures r.None? ==> forall i :: 0 <= i < |rules| ==> !(rules[i].source == source && Some(rules[i].trigger) == trigger)
  {
    if rules == [] then None
    else if rules[0].source == source && Some(rules[0].trigger) == trigger then Some(rules[0])
    else FindRule(rules[1..], source, trigger)
  }

  lemma {:induction false} TargetExists(plan: Plan, rule: FallbackRule)
    requires ValidPlan(plan) && rule in plan.rules
    ensures rule.target in StepsById(plan.steps) && StepsById(plan.steps)[rule.target].fallback
    ensures StepsById(plan.steps)[rule.target].stepId == rule.target && StepsById(plan.steps)[rule.target] in plan.steps
  {
    var i :| 0 <= i < |plan.rules| && plan.rules[i] == rule;
    assert RuleJoins(plan.steps, plan.rules[i]);
    DistinctLookup(plan.steps, rule.target, true);
    StepsByIdFinds(plan.steps, rule.target);
  }

  function TargetOf(plan: Plan, rule: FallbackRule): (step: PlanStep)
    requires ValidPlan(plan) && rule in plan.rules
    ensures step.fallback && step.stepId == rule.target && step in plan.steps
  {
    TargetExists(plan, rule);
    StepsById(plan.steps)[rule.target]
  }

  predicate FailedRun(o: Outcome) {
    o.Ran? && o.result.status.Failed?
  }

  // The calls made from step i on, after `calls` calls.
  ghost function TraceFrom(plan: Plan, registry: Registry, adapters: Adapters, i: nat, calls: nat): seq<Entry>
    requires ValidPlan(plan) && i <= |plan.steps|
    decreases |plan.steps| - i
  {
    if i == |plan.steps| then []
    else if plan.steps[i].fallback then TraceFrom(plan, registry, adapters, i + 1, calls)
    else
      var first := Entry(plan.steps[i], CallStep(registry, adapters, calls, plan.steps[i]));
      if !first.outcome.Ran? then [first]
      else if !FailedRun(first.outcome) then [first] + TraceFrom(plan, registry, adapters, i + 1, calls + 1)
      else
        var rule := FindRule(plan.rules, plan.steps[i].stepId, first.outcome.result.trigger);
        if rule.None? then [first]
        else
          var target := TargetOf(plan, rule.value);
          var second := Entry(target, CallStep(registry, adapters, calls + 1, target));
          if !second.outcome.Ran? || FailedRun(second.outcome) then [first, second]
          else [first, second] + TraceFrom(plan, registry, adapters, i + 1, calls + 2)
  }

  function LastDocument(trace: seq<Entry>): Option<nat> {
    if trace == [] then None
    else
      var o := trace[|trace| - 1].outcome;
      if o.Ran? && o.result.document.Some? then o.result.document else LastDocument(trace[..|trace| - 1])
  }

  function LastFailure(trace: seq<Entry>): Option<FailureCode> {
    if trace == [] then None
    else
      var o := trace[|trace| - 1].outcome;
      if o.Ran? && o.result.failure.Some? then o.result.failure else LastFailure(trace[..|trace| - 1])
  }

  predicate FallsShort(o: Outcome) {
    o.Ran? && (o.result.status.Partial? || o.result.status.Failed?)
  }

  predicate AnyShort(trace: seq<Entry>) {
    exists i :: 0 <= i < |trace| && FallsShort(trace[i].outcome)
  }

  // The result as a function of the calls that were made.
  function ResultOf(trace: seq<Entry>): FileResult {
    if trace != [] && trace[|trace| - 1].outcome.Boundary? then
      FileResult(None, ParseFailed, Some(trace[|trace| - 1].outcome.failure))
    else if trace != [] && trace[|trace| - 1].outcome.Raised? then
      FileResult(None, ParseFailed, Some(ParserWorkerFailed))
    else if trace != [] && FailedRun(trace[|trace| - 1].outcome) then
      var failure := trace[|trace| - 1].outcome.result.failure;
      FileResult(LastDocument(trace), ParseFailed, if failure.Some? then failure else Some(ParserWorkerFailed))
    else if AnyShort(trace) then FileResult(LastDocument(trace), PartiallyParsed, LastFailure(trace))
    else FileResult(LastDocument(trace), Parsed, None)
  }

  lemma {:induction false} AppendEntry(trace: seq<Entry>, e: Entry)
    ensures LastDocument(trace + [e])
            == if e.outcome.Ran? && e.outcome.result.document.Some? then e.outcome.result.document else LastDocument(trace)
    ensures LastFailure(trace + [e])
            == if e.outcome.Ran? && e.outcome.result.failure.Some? then e.outcome.result.failure else LastFailure(trace)
    ensures AnyShort(trace + [e]) <==> AnyShort(trace) || FallsShort(e.outcome)
  {
    var more := trace + [e];
    assert more[..|trace|] == trace && more[|trace|] == e;
    if AnyShort(trace) {
      var i :| 0 <= i < |trace| && FallsShort(trace[i].outcome);
      assert FallsShort(more[i].outcome);
    }
    if FallsShort(e.outcome) { assert FallsShort(more[|trace|].outcome); }
  }

  function OrElse<T>(a: Option<T>, b: Option<T>): Option<T> {
    if a.Some? then a else b
  }

  // The failure result of an exception, and nothing otherwise.
  function ExceptionResult(o: Outcome): Option<FileResult> {
    match o
    case Ran(_) => None
    case Boundary(failure) => Some(FileResult(None, ParseFailed, Some(failure)))
    case Raised => Some(FileResult(None, ParseFailed, Some(ParserWorkerFailed)))
  }

  lemma {:induction false} StopsWith(trace: seq<Entry>, e: Entry)
    requires !e.outcome.Ran? || FailedRun(e.outcome)
    ensures ResultOf(trace + [e])
            == if !e.outcome.Ran? then ExceptionResult(e.outcome).value
               else FileResult(OrElse(e.outcome.result.document, LastDocument(trace)), ParseFailed,
                               OrElse(e.outcome.result.failure, Some(ParserWorkerFailed)))
  {
    AppendEntry(trace, e);
  }

  lemma {:induction false} RunsThrough(trace: seq<Entry>)
    requires trace == [] || (trace[|trace| - 1].outcome.Ran? && !FailedRun(trace[|trace| - 1].outcome))
    ensures trace + [] == trace
    ensures ResultOf(trace)
            == FileResult(LastDocument(trace), if AnyShort(trace) then PartiallyParsed else Parsed,
                          if AnyShort(trace) then LastFailure(trace) else None)
  {
  }

  lemma {:induction false} Regroup(a: seq<Entry>, b: Entry, c: Entry, rest: seq<Entry>)
    ensures a + ([b] + [c]) == a + [b] + [c]
    ensures a + ([b] + rest) == a + [b] + rest
    ensures a + ([b] + [c] + rest) == a + [b] + [c] + rest
  {
  }

  // The calls from one step on, given how the step and its fallback went.
  lemma {:induction false} Unfolds(plan: Plan, registry: Registry, adapters: Adapters, i: nat, calls: nat)
    requires ValidPlan(plan) && i < |plan.steps| && !plan.steps[i].fallback
    ensures var step := plan.steps[i];
            var o := CallStep(registry, adapters, calls, step);
            var rest := TraceFrom(plan, registry, adapters, i, calls);
            if !o.Ran? then rest == [Entry(step, o)]
            else if !o.result.status.Failed? then rest == [Entry(step, o)] + TraceFrom(plan, registry, adapters, i + 1, calls + 1)
            else
              var rule := FindRule(plan.rules, step.stepId, o.result.trigger);
              if rule.None? then rest == [Entry(step, o)]
              else
                var target := TargetOf(plan, rule.value);
                var f := CallStep(registry, adapters, calls + 1, target);
                if !f.Ran? || f.result.status.Failed? then rest == [Entry(step, o)] + [Entry(target, f)]
                else rest == [Entry(step, o)] + [Entry(target, f)] + TraceFrom(plan, registry, adapters, i + 1, calls + 2)
  {
  }

  // The fallback of a failed step: either the run stops with a result, or it goes on with what the fallback contributed.
  method RunFallback(plan: Plan, registry: Registry, adapters: Adapters, rule: FallbackRule, calls: nat,
                     document: Option<nat>, lastFailure: Option<FailureCode>, ghost trace: seq<Entry>)
    returns (stop: Option<FileResult>, newDocument: Option<nat>, newFailure: Option<FailureCode>)
    requires ValidPlan(plan) && rule in plan.rules
    requires document == LastDocument(trace) && lastFailure == LastFailure(trace)
    ensures var e := Entry(TargetOf(plan, rule), CallStep(registry, adapters, calls, TargetOf(plan, rule)));
            if !e.outcome.Ran? || FailedRun(e.outcome) then stop == Some(ResultOf(trace + [e]))
            else stop.None? && newDocument == LastDocument(trace + [e]) && newFailure == LastFailure(trace + [e])
  {
    TargetExists(plan, rule);
    var target := StepsById(plan.steps)[rule.target];
    var second := CallStep(registry, adapters, calls, target);
    AppendEntry(trace, Entry(target, second));
    if !second.Ran? {
      StopsWith(trace, Entry(target, second));
      return ExceptionResult(second), document, lastFailure;
    }
    newDocument := OrElse(second.result.document, document);
    newFailure := OrElse(second.result.failure, lastFailure);
    if second.result.status.Failed? {
      StopsWith(trace, Entry(target, second));
      stop := Some(FileResult(newDocument, ParseFailed, OrElse(second.result.failure, Some(ParserWorkerFailed))));
    } else {
      stop := None;
    }
  }

  // The locals of the loop after the calls made so far, none of which ended the run.
  ghost predicate Standing(done: seq<Entry>, document: Option<nat>, lastFailure: Option<FailureCode>, partial: bool) {
    && document == LastDocument(done) && lastFailure == LastFailure(done) && partial == AnyShort(done)
    && (done == [] || (done[|done| - 1].outcome.Ran? && !FailedRun(done[|done| - 1].outcome)))
  }

  // One round of the loop, for an always-step.
  method RunStep(plan: Plan, registry: Registry, adapters: Adapters, i: nat, calls: nat, document: Option<nat>,
                 lastFailure: Option<FailureCode>, partial: bool, ghost done: seq<Entry>)
    returns (stop: Option<FileResult>, newCalls: nat, newDocument: Option<nat>, newFailure: Option<FailureCode>,
             newPartial: bool, ghost more: seq<Entry>)
    requires ValidPlan(plan) && i < |plan.steps| && !plan.steps[i].fallback
    requires Standing(done, document, lastFailure, partial)
    ensures stop.Some? ==> stop.value == ResultOf(done + TraceFrom(plan, registry, adapters, i, calls))
    ensures stop.None? ==>
              && Standing(more, newDocument, newFailure, newPartial)
              && done + TraceFrom(plan, registry, adapters, i, calls) == more + TraceFrom(plan, registry, adapters, i + 1, newCalls)
  {
    stop, newCalls, newDocument, newFailure, newPartial, more := None, calls + 1, document, lastFailure, partial, done;
    var step := plan.steps[i];
    var outcome := CallStep(registry, adapters, calls, step);
    ghost var first := Entry(step, outcome);
    Unfolds(plan, registry, adapters, i, calls);
    AppendEntry(done, first);
    if !outcome.Ran? {
      StopsWith(done, first);
      stop := ExceptionResult(outcome);
      return;
    }
    newDocument := OrElse(outcome.result.document, document);
    newFailure := OrElse(outcome.result.failure, lastFailure);
    newPartial := partial || outcome.result.status.Partial?;
    more := done + [first];
    if !outcome.result.status.Failed? {
      Regroup(done, first, first, TraceFrom(plan, registry, adapters, i + 1, calls + 1));
      return;
    }
    var rule := FindRule(plan.rules, step.stepId, outcome.result.trigger);
    if rule.None? {
      StopsWith(done, first);
      stop := Some(FileResult(newDocument, ParseFailed, OrElse(outcome.result.failure, Some(ParserWorkerFailed))));
      return;
    }
    ghost var target := TargetOf(plan, rule.value);
    ghost var second := Entry(target, CallStep(registry, adapters, calls + 1, target));
    stop, newDocument, newFailure := RunFallback(plan, registry, adapters, rule.value, calls + 1, newDocument, newFailure, more);
    newCalls, newPartial := calls + 2, true;
    Regroup(done, first, second, TraceFrom(plan, registry, adapters, i + 1, calls + 2));
    AppendEntry(more, second);
    more := more + [second];
  }

  method Execute(plan: Plan, registry: Registry, adapters: Adapters) returns (r: FileResult)
    requires ValidPlan(plan)
    ensures r == ResultOf(TraceFrom(plan, registry, adapters, 0, 0))
  {
    var document: Option<nat>, lastFailure: Option<FailureCode>, partial := None, None, false;
    var calls: nat := 0;
    ghost var whole := TraceFrom(plan, registry, adapters, 0, 0);
    ghost var done: seq<Entry> := [];
    for i := 0 to |plan.steps|
      invariant whole == done + TraceFrom(plan, registry, adapters, i, calls)
      invariant Standing(done, document, lastFailure, partial)
    {
      if plan.steps[i].fallback { continue; }
      var stop;
      stop, calls, document, lastFailure, partial, done :=
        RunStep(plan, registry, adapters, i, calls, document, lastFailure, partial, done);
      if stop.Some? {
        return stop.value;
      }
    }
    RunsThrough(done);
    return FileResult(document, if partial then PartiallyParsed else Parsed, if partial then lastFailure else None);
  }

  // ---------------------------------------------------------------- what a run looks like

  function AlwaysSteps(steps: seq<PlanStep>): seq<PlanStep> {
    if steps == [] then []
    else (if steps[0].fallback then [] else [steps[0]]) + AlwaysSteps(steps[1..])
  }

  function StepsOf(trace: seq<Entry>): seq<PlanStep> {
    seq(|trace|, i requires 0 <= i < |trace| => trace[i].step)
  }

  // A fallback runs only right after an always-step that failed with the trigger of a rule from that step to it.
  ghost predicate FallbackFollows(plan: Plan, trace: seq<Entry>, t: nat)
    requires t < |trace|
  {
    trace[t].step.fallback ==>
      && t > 0 && !trace[t - 1].step.fallback && FailedRun(trace[t - 1].outcome)
      && exists k :: 0 <= k < |plan.rules| && RuleLinks(plan.rules[k], trace[t - 1], trace[t])
  }

  predicate RuleLinks(r: FallbackRule, source: Entry, target: Entry) {
    && source.outcome.Ran? && r.source == source.step.stepId && Some(r.trigger) == source.outcome.result.trigger
    && r.target == target.step.stepId
  }

  // A run goes on only after a call that ran and, if it failed, only with its fallback.
  predicate GoesOn(trace: seq<Entry>, t: nat)
    requires t < |trace|
  {
    t < |trace| - 1 ==>
      trace[t].outcome.Ran? && (FailedRun(trace[t].outcome) ==> !trace[t].step.fallback && trace[t + 1].step.fallback)
  }

  // A failed always-step for whose trigger there is a rule is followed by the call of that rule's target.
  ghost predicate Recovered(plan: Plan, trace: seq<Entry>, t: nat, k: nat)
    requires t < |trace| && k < |plan.rules|
  {
    !trace[t].step.fallback && FailedRun(trace[t].outcome)
    && plan.rules[k].source == trace[t].step.stepId && Some(plan.rules[k].trigger) == trace[t].outcome.result.trigger
    ==> t + 1 < |trace| && trace[t + 1].step.fallback && trace[t + 1].step.stepId == plan.rules[k].target
  }

  ghost predicate AllRecovered(plan: Plan, trace: seq<Entry>) {
    forall t, k :: 0 <= t < |trace| && 0 <= k < |plan.rules| ==> Recovered(plan, trace, t, k)
  }

  lemma {:induction false} RecoveredFront(plan: Plan, front: seq<Entry>, rest: seq<Entry>)
    requires AllRecovered(plan, rest) && front != []
    requires forall t, k :: 0 <= t < |front| && 0 <= k < |plan.rules| ==> Recovered(plan, front, t, k)
    ensures AllRecovered(plan, front + rest)
  {
    var trace := front + rest;
    forall t, k | 0 <= t < |trace| && 0 <= k < |plan.rules| ensures Recovered(plan, trace, t, k) {
      if t < |front| { assert Recovered(plan, front, t, k); } else { assert Recovered(plan, rest, t - |front|, k); }
    }
  }

  // The rules of one route agree, so the one found stands for all.
  lemma {:induction false} PairRecovered(plan: Plan, a: Entry, b: Entry, rule: FallbackRule)
    requires ValidPlan(plan) && FailedRun(a.outcome) && !a.step.fallback && b.step.fallback
    requires FindRule(plan.rules, a.step.stepId, a.outcome.result.trigger) == Some(rule) && b.step.stepId == rule.target
    ensures AllRecovered(plan, [a, b])
  {
    var r :| 0 <= r < |plan.rules| && plan.rules[r] == rule;
    forall t, k | 0 <= t < 2 && 0 <= k < |plan.rules| ensures Recovered(plan, [a, b], t, k) {
      if r < k { assert plan.rules[r].source != plan.rules[k].source || plan.rules[r].trigger != plan.rules[k].trigger; }
      if k < r { assert plan.rules[k].source != plan.rules[r].source || plan.rules[k].trigger != plan.rules[r].trigger; }
    }
  }

  lemma {:induction false} SingleRecovered(plan: Plan, a: Entry)
    requires FailedRun(a.outcome) && !a.step.fallback ==> FindRule(plan.rules, a.step.stepId, a.outcome.result.trigger).None?
    ensures AllRecovered(plan, [a])
  {
  }

  // In every run each failure for which the plan has a fallback is followed by it.
  lemma {:induction false} FailuresRecovered(plan: Plan, registry: Registry, adapters: Adapters, i: nat, calls: nat)
    requires ValidPlan(plan) && i <= |plan.steps|
    ensures AllRecovered(plan, TraceFrom(plan, registry, adapters, i, calls))
    decreases |plan.steps| - i
  {
    if i < |plan.steps| {
      var step := plan.steps[i];
      if step.fallback {
        FailuresRecovered(plan, registry, adapters, i + 1, calls);
      } else {
        var a := Entry(step, CallStep(registry, adapters, calls, step));
        if FailedRun(a.outcome) && FindRule(plan.rules, step.stepId, a.outcome.result.trigger).Some? {
          var rule := FindRule(plan.rules, step.stepId, a.outcome.result.trigger).value;
          var b := Entry(TargetOf(plan, rule), CallStep(registry, adapters, calls + 1, TargetOf(plan, rule)));
          TraceRecovered(plan, registry, adapters, i, calls, a, rule);
          PairRecovered(plan, a, b, rule);
          var goesOn := b.outcome.Ran? && !FailedRun(b.outcome);
          if goesOn { FailuresRecovered(plan, registry, adapters, i + 1, calls + 2); }
          RecoveredFront(plan, [a, b], if goesOn then TraceFrom(plan, registry, adapters, i + 1, calls + 2) else []);
        } else {
          SingleRecovered(plan, a);
          var goesOn := a.outcome.Ran? && !FailedRun(a.outcome);
          if goesOn { FailuresRecovered(plan, registry, adapters, i + 1, calls + 1); }
          RecoveredFront(plan, [a], if goesOn then TraceFrom(plan, registry, adapters, i + 1, calls + 1) else []);
          TraceAlone(plan, registry, adapters, i, calls, a);
        }
      }
    }
  }

  // What a run does after a step that did not fail, or has no fallback.
  lemma {:induction false} TraceAlone(plan: Plan, registry: Registry, adapters: Adapters, i: nat, calls: nat, a: Entry)
    requires ValidPlan(plan) && i < |plan.steps| && !plan.steps[i].fallback
    requires a == Entry(plan.steps[i], CallStep(registry, adapters, calls, plan.steps[i]))
    requires !(FailedRun(a.outcome) && FindRule(plan.rules, plan.steps[i].stepId, a.outcome.result.trigger).Some?)
    ensures TraceFrom(plan, registry, adapters, i, calls)
            == [a] + if a.outcome.Ran? && !FailedRun(a.outcome) then TraceFrom(plan, registry, adapters, i + 1, calls + 1) else []
  {
  }

  // What call t of a run does: it asks the registry, and then the adapter, which knows how many calls came before.
  ghost predicate CallIsMade(registry: Registry, adapters: Adapters, entry: Entry, t: nat) {
    var id := entry.step.capabilityId;
    if id !in registry || entry.step.kind !in registry[id].capability.stepKinds then entry.outcome == Boundary(UnsupportedFileKind)
    else if !registry[id].capability.enabled then entry.outcome == Boundary(ParserDisabled)
    else if !registry[id].capability.licenseAllowed then entry.outcome == Boundary(LicensePolicyViolation)
    else entry.outcome == adapters(registry[id].adapter, t, entry.step)
  }

  lemma {:induction false} StepIsCalled(registry: Registry, adapters: Adapters, calls: nat, step: PlanStep)
    ensures CallIsMade(registry, adapters, Entry(step, CallStep(registry, adapters, calls, step)), calls)
  {
  }

  ghost predicate CallsMade(registry: Registry, adapters: Adapters, trace: seq<Entry>, calls: nat) {
    forall t :: 0 <= t < |trace| ==> CallIsMade(registry, adapters, trace[t], calls + t)
  }

  lemma {:induction false} CallsFront(registry: Registry, adapters: Adapters, front: seq<Entry>, rest: seq<Entry>, calls: nat)
    requires CallsMade(registry, adapters, front, calls) && CallsMade(registry, adapters, rest, calls + |front|)
    ensures CallsMade(registry, adapters, front + rest, calls)
  {
    forall t | 0 <= t < |front + rest| ensures CallIsMade(registry, adapters, (front + rest)[t], calls + t) {
      if t >= |front| { assert CallIsMade(registry, adapters, rest[t - |front|], calls + |front| + (t - |front|)); }
    }
  }

  lemma {:induction false} PairCalled(registry: Registry, adapters: Adapters, calls: nat, step: PlanStep, target: PlanStep)
    ensures CallsMade(registry, adapters, [Entry(step, CallStep(registry, adapters, calls, step))], calls)
    ensures CallsMade(registry, adapters, [Entry(step, CallStep(registry, adapters, calls, step)),
                                           Entry(target, CallStep(registry, adapters, calls + 1, target))], calls)
  {
    StepIsCalled(registry, adapters, calls, step);
    StepIsCalled(registry, adapters, calls + 1, target);
  }

  // In every run each call is made in this way, the first one after `calls` others.
  lemma {:induction false} CallsAreMade(plan: Plan, registry: Registry, adapters: Adapters, i: nat, calls: nat)
    requires ValidPlan(plan) && i <= |plan.steps|
    ensures CallsMade(registry, adapters, TraceFrom(plan, registry, adapters, i, calls), calls)
    decreases |plan.steps| - i, 1
  {
    if i < |plan.steps| {
      var step := plan.steps[i];
      if step.fallback {
        CallsAreMade(plan, registry, adapters, i + 1, calls);
      } else {
        var a := Entry(step, CallStep(registry, adapters, calls, step));
        if FailedRun(a.outcome) && FindRule(plan.rules, step.stepId, a.outcome.result.trigger).Some? {
          CallsRecovered(plan, registry, adapters, i, calls, a, FindRule(plan.rules, step.stepId, a.outcome.result.trigger).value);
        } else {
          PairCalled(registry, adapters, calls, step, step);
          var goesOn := a.outcome.Ran? && !FailedRun(a.outcome);
          if goesOn { CallsAreMade(plan, registry, adapters, i + 1, calls + 1); }
          CallsFront(registry, adapters, [a], if goesOn then TraceFrom(plan, registry, adapters, i + 1, calls + 1) else [], calls);
          TraceAlone(plan, registry, adapters, i, calls, a);
        }
      }
    }
  }

  lemma {:induction false} CallsRecovered(plan: Plan, registry: Registry, adapters: Adapters, i: nat, calls: nat, a: Entry, rule: FallbackRule)
    requires ValidPlan(plan) && i < |plan.steps| && !plan.steps[i].fallback
    requires a == Entry(plan.steps[i], CallStep(registry, adapters, calls, plan.steps[i])) && FailedRun(a.outcome)
    requires FindRule(plan.rules, plan.steps[i].stepId, a.outcome.result.trigger) == Some(rule)
    ensures CallsMade(registry, adapters, TraceFrom(plan, registry, adapters, i, calls), calls)
    decreases |plan.steps| - i, 0
  {
    var target := TargetOf(plan, rule);
    var b := Entry(target, CallStep(registry, adapters, calls + 1, target));
    TraceRecovered(plan, registry, adapters, i, calls, a, rule);
    PairCalled(registry, adapters, calls, a.step, target);
    var goesOn := b.outcome.Ran? && !FailedRun(b.outcome);
    if goesOn { CallsAreMade(plan, registry, adapters, i + 1, calls + 2); }
    CallsFront(registry, adapters, [a, b], if goesOn then TraceFrom(plan, registry, adapters, i + 1, calls + 2) else [], calls);
  }

  predicate EndsWell(trace: seq<Entry>) {
    trace == [] || (trace[|trace| - 1].outcome.Ran? && !FailedRun(trace[|trace| - 1].outcome))
  }

  ghost predicate Orderly(plan: Plan, trace: seq<Entry>) {
    && (trace != [] ==> !trace[0].step.fallback)
    && (forall t :: 0 <= t < |trace| ==> FallbackFollows(plan, trace, t) && GoesOn(trace, t))
  }

  // Putting one or two calls in front of an orderly run.
  lemma {:induction false} OrderlyFront(plan: Plan, a: Entry, rest: seq<Entry>)
    requires Orderly(plan, rest) && !a.step.fallback && a.outcome.Ran? && !FailedRun(a.outcome)
    ensures Orderly(plan, [a] + rest)
  {
    var trace := [a] + rest;
    forall t | 0 <= t < |trace| ensures FallbackFollows(plan, trace, t) && GoesOn(trace, t) {
      if t > 0 { assert FallbackFollows(plan, rest, t - 1) && GoesOn(rest, t - 1); }
    }
  }

  lemma {:induction false} OrderlyPair(plan: Plan, a: Entry, b: Entry, rest: seq<Entry>, r: FallbackRule)
    requires Orderly(plan, rest) && !a.step.fallback && FailedRun(a.outcome) && b.step.fallback
    requires r in plan.rules && RuleLinks(r, a, b)
    requires rest != [] ==> b.outcome.Ran? && !FailedRun(b.outcome)
    ensures Orderly(plan, [a, b] + rest)
  {
    var trace := [a, b] + rest;
    var k :| 0 <= k < |plan.rules| && plan.rules[k] == r;
    assert RuleLinks(plan.rules[k], trace[0], trace[1]);
    forall t | 0 <= t < |trace| ensures FallbackFollows(plan, trace, t) && GoesOn(trace, t) {
      if t > 1 {
        assert FallbackFollows(plan, rest, t - 2) && GoesOn(rest, t - 2);
        assert t == 2 ==> trace[t] == rest[0];
      }
    }
  }

  lemma {:induction false} RunIsOrderly(plan: Plan, registry: Registry, adapters: Adapters, i: nat, calls: nat)
    requires ValidPlan(plan) && i <= |plan.steps|
    ensures Orderly(plan, TraceFrom(plan, registry, adapters, i, calls))
    decreases |plan.steps| - i
  {
    if i < |plan.steps| {
      var step := plan.steps[i];
      if step.fallback {
        RunIsOrderly(plan, registry, adapters, i + 1, calls);
      } else {
        var a := Entry(step, CallStep(registry, adapters, calls, step));
        Unfolds(plan, registry, adapters, i, calls);
        if a.outcome.Ran? && !FailedRun(a.outcome) {
          RunIsOrderly(plan, registry, adapters, i + 1, calls + 1);
          OrderlyFront(plan, a, TraceFrom(plan, registry, adapters, i + 1, calls + 1));
        } else if FailedRun(a.outcome) {
          var rule := FindRule(plan.rules, step.stepId, a.outcome.result.trigger);
          if rule.Some? {
            var target := TargetOf(plan, rule.value);
            var b := Entry(target, CallStep(registry, adapters, calls + 1, target));
            var goesOn := b.outcome.Ran? && !FailedRun(b.outcome);
            if goesOn { RunIsOrderly(plan, registry, adapters, i + 1, calls + 2); }
            OrderlyPair(plan, a, b, if goesOn then TraceFrom(plan, registry, adapters, i + 1, calls + 2) else [], rule.value);
          }
        }
      }
    }
  }

  lemma {:induction false} AlwaysFront(a: PlanStep, rest: seq<PlanStep>)
    ensures AlwaysSteps([a] + rest) == (if a.fallback then [] else [a]) + AlwaysSteps(rest)
  {
    assert ([a] + rest)[1..] == rest;
  }

  lemma {:induction false} StepsFront(a: Entry, rest: seq<Entry>)
    ensures StepsOf([a] + rest) == [a.step] + StepsOf(rest)
    ensures AlwaysSteps(StepsOf([a] + rest)) == (if a.step.fallback then [] else [a.step]) + AlwaysSteps(StepsOf(rest))
    ensures rest != [] ==> (EndsWell([a] + rest) <==> EndsWell(rest))
  {
    AlwaysFront(a.step, StepsOf(rest));
  }

  // The always-steps called are a first part of these, and all of them when the run ends well.
  predicate InOrder(trace: seq<Entry>, steps: seq<PlanStep>) {
    && AlwaysSteps(StepsOf(trace)) <= steps
    && (EndsWell(trace) ==> AlwaysSteps(StepsOf(trace)) == steps)
  }

  lemma {:induction false} InOrderFront(a: Entry, rest: seq<Entry>, steps: seq<PlanStep>)
    requires !a.step.fallback && a.outcome.Ran? && !FailedRun(a.outcome) && InOrder(rest, steps)
    ensures InOrder([a] + rest, [a.step] + steps)
  {
    StepsFront(a, rest);
    if rest == [] { assert EndsWell(rest) && [a] + rest == [a]; }
  }

  // A failed step and its fallback, which ran well or ended the run.
  lemma {:induction false} InOrderPair(a: Entry, b: Entry, rest: seq<Entry>, steps: seq<PlanStep>)
    requires !a.step.fallback && b.step.fallback
    requires if b.outcome.Ran? && !FailedRun(b.outcome) then InOrder(rest, steps) else rest == []
    ensures InOrder([a] + ([b] + rest), [a.step] + steps)
  {
    StepsFront(b, rest);
    StepsFront(a, [b] + rest);
    if rest == [] {
      assert [b] + rest == [b] && [a] + ([b] + rest) == [a] + [b];
      assert EndsWell([a] + [b]) <==> b.outcome.Ran? && !FailedRun(b.outcome);
    }
  }

  lemma {:induction false} InOrderStop(a: Entry, steps: seq<PlanStep>)
    requires !a.step.fallback && (!a.outcome.Ran? || FailedRun(a.outcome))
    ensures InOrder([a], [a.step] + steps)
  {
    StepsFront(a, []);
    assert [a] + [] == [a];
  }

  // The always-steps called are the plan's, in order, up to where the run stops; a run that ends well called them all.
  lemma {:induction false} AlwaysInOrder(plan: Plan, registry: Registry, adapters: Adapters, i: nat, calls: nat)
    requires ValidPlan(plan) && i <= |plan.steps|
    ensures InOrder(TraceFrom(plan, registry, adapters, i, calls), AlwaysSteps(plan.steps[i..]))
    decreases |plan.steps| - i
  {
    if i < |plan.steps| {
      var step, later := plan.steps[i], AlwaysSteps(plan.steps[i + 1..]);
      assert plan.steps[i..] == [step] + plan.steps[i + 1..];
      AlwaysFront(step, plan.steps[i + 1..]);
      if step.fallback {
        AlwaysInOrder(plan, registry, adapters, i + 1, calls);
      } else {
        AlwaysInOrderStep(plan, registry, adapters, i, calls, later);
      }
    }
  }

  lemma {:induction false} AlwaysInOrderStep(plan: Plan, registry: Registry, adapters: Adapters, i: nat, calls: nat, later: seq<PlanStep>)
    requires ValidPlan(plan) && i < |plan.steps| && !plan.steps[i].fallback && later == AlwaysSteps(plan.steps[i + 1..])
    ensures InOrder(TraceFrom(plan, registry, adapters, i, calls), [plan.steps[i]] + later)
    decreases |plan.steps| - i, 1
  {
    var step := plan.steps[i];
    var a := Entry(step, CallStep(registry, adapters, calls, step));
    if FailedRun(a.outcome) && FindRule(plan.rules, step.stepId, a.outcome.result.trigger).Some? {
      AlwaysInOrderRecovered(plan, registry, adapters, i, calls, later, a, FindRule(plan.rules, step.stepId, a.outcome.result.trigger).value);
    } else {
      TraceAlone(plan, registry, adapters, i, calls, a);
      if a.outcome.Ran? && !FailedRun(a.outcome) {
        AlwaysInOrder(plan, registry, adapters, i + 1, calls + 1);
        InOrderFront(a, TraceFrom(plan, registry, adapters, i + 1, calls + 1), later);
      } else {
        InOrderStop(a, later);
      }
    }
  }

  // What a run does after a step that failed and has a fallback.
  lemma {:induction false} TraceRecovered(plan: Plan, registry: Registry, adapters: Adapters, i: nat, calls: nat, a: Entry, rule: FallbackRule)
    requires ValidPlan(plan) && i < |plan.steps| && !plan.steps[i].fallback
    requires a == Entry(plan.steps[i], CallStep(registry, adapters, calls, plan.steps[i])) && FailedRun(a.outcome)
    requires FindRule(plan.rules, plan.steps[i].stepId, a.outcome.result.trigger) == Some(rule)
    ensures var target := TargetOf(plan, rule);
            var b := Entry(target, CallStep(registry, adapters, calls + 1, target));
            TraceFrom(plan, registry, adapters, i, calls)
            == [a, b] + if b.outcome.Ran? && !FailedRun(b.outcome) then TraceFrom(plan, registry, adapters, i + 1, calls + 2) else []
  {
  }

  // The step failed and a rule names its fallback.
  lemma {:induction false} AlwaysInOrderRecovered(plan: Plan, registry: Registry, adapters: Adapters, i: nat, calls: nat,
                                                  later: seq<PlanStep>, a: Entry, rule: FallbackRule)
    requires ValidPlan(plan) && i < |plan.steps| && !plan.steps[i].fallback && later == AlwaysSteps(plan.steps[i + 1..])
    requires a == Entry(plan.steps[i], CallStep(registry, adapters, calls, plan.steps[i])) && FailedRun(a.outcome)
    requires FindRule(plan.rules, plan.steps[i].stepId, a.outcome.result.trigger) == Some(rule)
    ensures InOrder(TraceFrom(plan, registry, adapters, i, calls), [plan.steps[i]] + later)
    decreases |plan.steps| - i, 0
  {
    var target := TargetOf(plan, rule);
    var b := Entry(target, CallStep(registry, adapters, calls + 1, target));
    TraceRecovered(plan, registry, adapters, i, calls, a, rule);
    var goesOn := b.outcome.Ran? && !FailedRun(b.outcome);
    if goesOn { AlwaysInOrder(plan, registry, adapters, i + 1, calls + 2); }
    FallbackInOrder(a, b, if goesOn then TraceFrom(plan, registry, adapters, i + 1, calls + 2) else [],
                    TraceFrom(plan, registry, adapters, i, calls), later);
  }

  lemma {:induction false} FallbackInOrder(a: Entry, b: Entry, rest: seq<Entry>, trace: seq<Entry>, later: seq<PlanStep>)
    requires !a.step.fallback && b.step.fallback
    requires if b.outcome.Ran? && !FailedRun(b.outcome) then InOrder(rest, later) else rest == []
    requires trace == [a, b] + rest
    ensures InOrder(trace, [a.step] + later)
  {
    InOrderPair(a, b, rest, later);
    assert [a, b] + rest == [a] + ([b] + rest);
  }

  // The report of a run in terms of the calls it made, for any valid plan and any behaviour of the adapters.
  lemma {:induction false} ReportIsRight(plan: Plan, registry: Registry, adapters: Adapters)
    requires ValidPlan(plan)
    ensures var trace := TraceFrom(plan, registry, adapters, 0, 0);
            var r := ResultOf(trace);
            && (r.status.ParseFailed? <==> !EndsWell(trace))
            && (r.status.ParseFailed? ==> r.failure.Some?)
            && (!r.status.ParseFailed? ==> AlwaysSteps(StepsOf(trace)) == AlwaysSteps(plan.steps))
            && (r.status.Parsed? <==> forall t :: 0 <= t < |trace| ==> trace[t].outcome.Ran? && !FallsShort(trace[t].outcome))
            && (r.status.Parsed? ==> r.failure.None?)
  {
    var trace := TraceFrom(plan, registry, adapters, 0, 0);
    AlwaysInOrder(plan, registry, adapters, 0, 0);
    RunIsOrderly(plan, registry, adapters, 0, 0);
    assert plan.steps[0..] == plan.steps;
    if EndsWell(trace) {
      RunsThrough(trace);
      forall t | 0 <= t < |trace| ensures trace[t].outcome.Ran? {
        assert GoesOn(trace, t);
      }
    } else {
      var last := trace[|trace| - 1];
      assert !(last.outcome.Ran? && !FallsShort(last.outcome));
    }
  }

  // The document is that of the last call that gave one.
  ghost predicate IsLastDocument(trace: seq<Entry>, document: Option<nat>) {
    if document.None? then forall t :: 0 <= t < |trace| ==> !GivesDocument(trace[t].outcome)
    else exists t :: 0 <= t < |trace| && LastGiven(trace, t) && trace[t].outcome.result.document == document
  }

  predicate GivesDocument(o: Outcome) {
    o.Ran? && o.result.document.Some?
  }

  ghost predicate LastGiven(trace: seq<Entry>, t: nat)
    requires t < |trace|
  {
    GivesDocument(trace[t].outcome) && forall u :: t < u < |trace| ==> !GivesDocument(trace[u].outcome)
  }

  lemma {:induction false} LastDocumentIs(trace: seq<Entry>)
    ensures IsLastDocument(trace, LastDocument(trace))
  {
    if trace != [] {
      var n := |trace| - 1;
      LastDocumentIs(trace[..n]);
      var d := LastDocument(trace);
      if GivesDocument(trace[n].outcome) {
        assert LastGiven(trace, n);
      } else if d.Some? {
        var t :| 0 <= t < n && LastGiven(trace[..n], t) && trace[..n][t].outcome.result.document == d;
        assert LastGiven(trace, t);
      }
    }
  }

  // The failure is that of the last call that gave one.
  ghost predicate IsLastFailure(trace: seq<Entry>, failure: Option<FailureCode>) {
    if failure.None? then forall t :: 0 <= t < |trace| ==> !GivesFailure(trace[t].outcome)
    else exists t :: 0 <= t < |trace| && LastFailing(trace, t) && trace[t].outcome.result.failure == failure
  }

  predicate GivesFailure(o: Outcome) {
    o.Ran? && o.result.failure.Some?
  }

  ghost predicate LastFailing(trace: seq<Entry>, t: nat)
    requires t < |trace|
  {
    GivesFailure(trace[t].outcome) && forall u :: t < u < |trace| ==> !GivesFailure(trace[u].outcome)
  }

  lemma {:induction false} LastFailureIs(trace: seq<Entry>)
    ensures IsLastFailure(trace, LastFailure(trace))
  {
    if trace != [] {
      var n := |trace| - 1;
      LastFailureIs(trace[..n]);
      var f := LastFailure(trace);
      if GivesFailure(trace[n].outcome) {
        assert LastFailing(trace, n);
      } else if f.Some? {
        var t :| 0 <= t < n && LastFailing(trace[..n], t) && trace[..n][t].outcome.result.failure == f;
        assert LastFailing(trace, t);
      }
    }
  }

  // What the report of a run carries: an exception's failure alone; else the last document, with a failed last call its failure
  // or PARSER_WORKER_FAILED, and with a partial run the last failure.
  lemma {:induction false} ReportCarries(plan: Plan, registry: Registry, adapters: Adapters)
    requires ValidPlan(plan)
    ensures var trace := TraceFrom(plan, registry, adapters, 0, 0);
            var r := ResultOf(trace);
            if trace != [] && trace[|trace| - 1].outcome.Boundary? then
              r.document.None? && r.failure == Some(trace[|trace| - 1].outcome.failure)
            else if trace != [] && trace[|trace| - 1].outcome.Raised? then r.document.None? && r.failure == Some(ParserWorkerFailed)
            else
              && IsLastDocument(trace, r.document)
              && (trace != [] && trace[|trace| - 1].outcome.result.status.Failed? ==>
                    var last := trace[|trace| - 1].outcome.result;
                    r.failure == if last.failure.Some? then last.failure else Some(ParserWorkerFailed))
              && (r.status.PartiallyParsed? ==> IsLastFailure(trace, r.failure))
  {
    LastFailureIs(TraceFrom(plan, registry, adapters, 0, 0));
    LastDocumentIs(TraceFrom(plan, registry, adapters, 0, 0));
  }

  // A plan of the resolver, executed over the registrations it was resolved from, all of them licensed: every call of
  // one of its steps reaches an adapter, so a boundary failure can only come from the adapter itself.
  lemma {:induction false} ResolvedStepsReachAdapters(r: PlanRequest, registrations: seq<Registration>, registry: Registry, adapters: Adapters,
                                   step: PlanStep, calls: nat)
    requires ResolvePlan(r).Planned? && step in ResolvePlan(r).plan.steps
    requires SharedWith(r, registrations) && Registers(registry, registrations)
    requires forall i :: 0 <= i < |registrations| ==> registrations[i].capability.licenseAllowed
    ensures step.capabilityId in registry
    ensures CallStep(registry, adapters, calls, step) == adapters(registry[step.capabilityId].adapter, calls, step)
  {
    var k :| 0 <= k < |ResolvePlan(r).plan.steps| && ResolvePlan(r).plan.steps[k] == step;
    LookupSucceeds(r, registrations, registry, k);
    assert registry[step.capabilityId] in registrations;
  }
}
