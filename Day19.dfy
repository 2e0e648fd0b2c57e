/** Day 19: parts rated on four properties travel through named workflows. Each workflow
    sends a part to the target of its first rule the part matches, or to its default; a part
    stops at the first name that has no workflow, which is "A" for an accepted part. */
module Day19 {
  import opened Wrappers
  import opened Text

  datatype Property = X | M | A | S

  /** `std::cmp::Ordering`. */
  datatype Ordering = Less | Equal | Greater

  /** A workflow's name: up to three characters, padded with spaces. */
  datatype WorkflowName = WorkflowName(first: char, second: char, third: char)

  /** A rule: when the part's `property` compares to `comparator` as `comparison` says, the
      part goes to `target`. */
  datatype WorkStep = WorkStep(property: Property, comparison: Ordering, comparator: nat, target: WorkflowName)

  datatype Workflow = Workflow(name: WorkflowName, steps: seq<WorkStep>, default: WorkflowName)

  datatype Part = Part(x: nat, m: nat, a: nat, s: nat)

  /** The workflows by name, and the parts to sort. */
  datatype WorkflowSystem = WorkflowSystem(workflows: map<WorkflowName, Workflow>, parts: seq<Part>)

  const ACCEPTED := WorkflowName('A', ' ', ' ')
  const START := WorkflowName('i', 'n', ' ')
  /** Not a workflow either: a part sent here is rejected. */
  const REJECTED := WorkflowName('R', ' ', ' ')

  // ---------------------------------------------------------------------------------------
  // Parts and rules

  /** `Part::get`. */
  function Get(part: Part, property: Property): nat
  {
    match property
    case X => part.x
    case M => part.m
    case A => part.a
    case S => part.s
  }

  /** The part with the rating of one property replaced, as the parser's slots are set. */
  function With(part: Part, property: Property, value: nat): (r: Part)
    ensures Get(r, property) == value
    ensures forall q :: q != property ==> Get(r, q) == Get(part, q)
  {
    match property
    case X => part.(x := value)
    case M => part.(m := value)
    case A => part.(a := value)
    case S => part.(s := value)
  }

  /** A part is determined by its four ratings. */
  lemma PartExtensional(p: Part, q: Part)
    requires forall property :: Get(p, property) == Get(q, property)
    ensures p == q
  {
    assert Get(p, X) == Get(q, X) && Get(p, M) == Get(q, M);
    assert Get(p, A) == Get(q, A) && Get(p, S) == Get(q, S);
  }

  /** `Ord::cmp` on integers. */
  function Compare(a: int, b: int): (o: Ordering)
    ensures o == Less <==> a < b
    ensures o == Equal <==> a == b
    ensures o == Greater <==> a > b
  {
    if a < b then Less else if a == b then Equal else Greater
  }

  /** `Part::matches`: comparing the rating with the comparator gives the rule's ordering. */
  function Matches(part: Part, step: WorkStep): (r: bool)
    ensures r <==> ((step.comparison == Less && Get(part, step.property) < step.comparator)
                    || (step.comparison == Equal && Get(part, step.property) == step.comparator)
                    || (step.comparison == Greater && Get(part, step.property) > step.comparator))
  {
    Compare(Get(part, step.property), step.comparator) == step.comparison
  }

  /** `Part::total`: the sum of the four ratings. */
  function Total(part: Part): (t: nat)
    ensures t == Get(part, X) + Get(part, M) + Get(part, A) + Get(part, S)
  {
    part.x + part.m + part.a + part.s
  }

  /** Changing one rating changes the total by the difference. */
  lemma TotalWith(part: Part, property: Property, value: nat)
    ensures Total(With(part, property, value)) + Get(part, property) == Total(part) + value
  {
    var r := With(part, property, value);
    assert forall q :: q != property ==> Get(r, q) == Get(part, q);
    match property
    case X => assert Get(r, M) == part.m && Get(r, A) == part.a && Get(r, S) == part.s;
    case M => assert Get(r, X) == part.x && Get(r, A) == part.a && Get(r, S) == part.s;
    case A => assert Get(r, X) == part.x && Get(r, M) == part.m && Get(r, S) == part.s;
    case S => assert Get(r, X) == part.x && Get(r, M) == part.m && Get(r, A) == part.a;
  }

  // ---------------------------------------------------------------------------------------
  // One workflow

  /** The index of the first rule the part matches, if any. */
  function FirstMatch(part: Part, steps: seq<WorkStep>): (r: Option<nat>)
    ensures r.Some? ==> r.value < |steps| && Matches(part, steps[r.value])
                        && forall j :: 0 <= j < r.value ==> !Matches(part, steps[j])
    ensures r.None? ==> forall j :: 0 <= j < |steps| ==> !Matches(part, steps[j])
  {
    if steps == [] then None
    else if Matches(part, steps[0]) then Some(0)
    else match FirstMatch(part, steps[1..])
      case None => None
      case Some(i) => Some(i + 1)
  }

  /** Where a workflow sends a part: the target of the first rule it matches, or the default. */
  function Destination(w: Workflow, part: Part): WorkflowName
  {
    match FirstMatch(part, w.steps)
    case Some(i) => w.steps[i].target
    case None => w.default
  }

  /** Rules after a matching one do not matter; before it, only rules the part does not
      match can be added. */
  lemma DestinationPrefix(w: Workflow, part: Part, i: nat, more: seq<WorkStep>)
    requires i < |w.steps| && Matches(part, w.steps[i])
    requires forall j :: 0 <= j < i ==> !Matches(part, w.steps[j])
    ensures Destination(w.(steps := w.steps[..i + 1] + more), part) == w.steps[i].target
    ensures Destination(w, part) == w.steps[i].target
  {
    var steps := w.steps[..i + 1] + more;
    assert steps[i] == w.steps[i];
    assert forall j :: 0 <= j < i ==> steps[j] == w.steps[j];
    var k := FirstMatch(part, steps);
    assert k == Some(i);
    var k' := FirstMatch(part, w.steps);
    assert k' == Some(i);
  }

  /** `Workflow::process`: the rules in order, returning the target of the first match. */
  method Process(w: Workflow, part: Part) returns (target: WorkflowName)
    ensures target == Destination(w, part)
  {
    for i := 0 to |w.steps|
      invariant forall j :: 0 <= j < i ==> !Matches(part, w.steps[j])
    {
      if Matches(part, w.steps[i]) {
        DestinationPrefix(w, part, i, []);
        return w.steps[i].target;
      }
    }
    return w.default;
  }

  // ---------------------------------------------------------------------------------------
  // The system of workflows

  /** Where the part is after `n` workflows from `location`, standing still once no
      workflow has its name. */
  function After(workflows: map<WorkflowName, Workflow>, part: Part, location: WorkflowName, n: nat): WorkflowName
    decreases n
  {
    if n == 0 || location !in workflows then location
    else After(workflows, part, Destination(workflows[location], part), n - 1)
  }

  /** `WorkflowSystem::process` from `location`: follow the workflows until a name without
      one, passing through at most `fuel` workflows. */
  function Follow(workflows: map<WorkflowName, Workflow>, part: Part, location: WorkflowName, fuel: nat): (r: Fuelled<WorkflowName>)
    ensures r.Finished? ==> r.value !in workflows
    decreases fuel
  {
    if location !in workflows then Finished(location)
    else if fuel == 0 then OutOfFuel
    else Follow(workflows, part, Destination(workflows[location], part), fuel - 1)
  }

  /** The journey finishes within the fuel exactly when the location after that many
      workflows has no workflow, and it finishes there. */
  lemma {:induction false} FollowAfter(workflows: map<WorkflowName, Workflow>, part: Part, location: WorkflowName, fuel: nat)
    ensures Follow(workflows, part, location, fuel).Finished? <==> After(workflows, part, location, fuel) !in workflows
    ensures Follow(workflows, part, location, fuel).Finished? ==>
              Follow(workflows, part, location, fuel).value == After(workflows, part, location, fuel)
    decreases fuel
  {
    if location in workflows && fuel > 0 {
      FollowAfter(workflows, part, Destination(workflows[location], part), fuel - 1);
    }
  }

  /** Once finished, more fuel changes nothing: the result does not depend on the bound. */
  lemma {:induction false} FollowMoreFuel(workflows: map<WorkflowName, Workflow>, part: Part, location: WorkflowName, fuel: nat, more: nat)
    requires fuel <= more && Follow(workflows, part, location, fuel).Finished?
    ensures Follow(workflows, part, location, more) == Follow(workflows, part, location, fuel)
    decreases fuel
  {
    if location in workflows {
      FollowMoreFuel(workflows, part, Destination(workflows[location], part), fuel - 1, more - 1);
    }
  }

  /** A workflow that sends the part back to itself traps it: the source loops forever and
      no fuel is enough. */
  lemma {:induction false} FollowCycle(workflows: map<WorkflowName, Workflow>, part: Part, location: WorkflowName, fuel: nat)
    requires location in workflows && Destination(workflows[location], part) == location
    ensures Follow(workflows, part, location, fuel) == OutOfFuel
  {
    if fuel > 0 {
      FollowCycle(workflows, part, location, fuel - 1);
    }
  }

  /** `WorkflowSystem::process`: from "in", through workflows while the location has one. */
  method ProcessPart(system: WorkflowSystem, part: Part, fuel: nat) returns (r: Fuelled<WorkflowName>)
    ensures r == Follow(system.workflows, part, START, fuel)
  {
    var location := START;
    var remaining := fuel;
    while location in system.workflows
      invariant Follow(system.workflows, part, location, remaining) == Follow(system.workflows, part, START, fuel)
      decreases remaining
    {
      if remaining == 0 {
        return OutOfFuel;
      }
      location := Process(system.workflows[location], part);
      remaining := remaining - 1;
    }
    r := Finished(location);
  }

  // ---------------------------------------------------------------------------------------
  // Accepted parts

  /** Where a part's journey from "in" ends, within the fuel. */
  function Journey(workflows: map<WorkflowName, Workflow>, fuel: nat): Part -> Fuelled<WorkflowName>
  {
    part => Follow(workflows, part, START, fuel)
  }

  /** The sum of the totals of the parts whose journey ends at "A", or `OutOfFuel` when some
      journey outlasts the fuel. */
  function AcceptedBy(journey: Part -> Fuelled<WorkflowName>, parts: seq<Part>): Fuelled<nat>
  {
    if parts == [] then Finished(0)
    else
      match AcceptedBy(journey, parts[..|parts| - 1])
      case OutOfFuel => OutOfFuel
      case Finished(sum) =>
        var part := parts[|parts| - 1];
        match journey(part)
        case OutOfFuel => OutOfFuel
        case Finished(end) => Finished(if end == ACCEPTED then sum + Total(part) else sum)
  }

  /** The total of the parts the workflows accept, starting each at "in". */
  function AcceptedTotal(workflows: map<WorkflowName, Workflow>, parts: seq<Part>, fuel: nat): Fuelled<nat>
  {
    AcceptedBy(Journey(workflows, fuel), parts)
  }

  /** The sum of the totals of all the parts. */
  function SumTotals(parts: seq<Part>): nat
  {
    if parts == [] then 0 else SumTotals(parts[..|parts| - 1]) + Total(parts[|parts| - 1])
  }

  /** The accepted total is at most the total of all parts, and equal to it when every part
      is accepted. */
  lemma {:induction false} AcceptedBound(journey: Part -> Fuelled<WorkflowName>, parts: seq<Part>)
    requires AcceptedBy(journey, parts).Finished?
    ensures AcceptedBy(journey, parts).value <= SumTotals(parts)
    ensures (forall k :: 0 <= k < |parts| ==> journey(parts[k]) == Finished(ACCEPTED))
            ==> AcceptedBy(journey, parts).value == SumTotals(parts)
  {
    if parts != [] {
      var init := parts[..|parts| - 1];
      AcceptedBound(journey, init);
      assert forall k :: 0 <= k < |init| ==> init[k] == parts[k];
    }
  }

  /** No part accepted, nothing counted. */
  lemma {:induction false} NoneAccepted(journey: Part -> Fuelled<WorkflowName>, parts: seq<Part>)
    requires forall k :: 0 <= k < |parts| ==> journey(parts[k]).Finished? && journey(parts[k]).value != ACCEPTED
    ensures AcceptedBy(journey, parts) == Finished(0)
  {
    if parts != [] {
      var init := parts[..|parts| - 1];
      assert forall k :: 0 <= k < |init| ==> init[k] == parts[k];
      NoneAccepted(journey, init);
    }
  }

  /** The total, once every journey finishes, stays the same with more fuel. */
  lemma {:induction false} AcceptedTotalMoreFuel(workflows: map<WorkflowName, Workflow>, parts: seq<Part>, fuel: nat, more: nat)
    requires fuel <= more && AcceptedTotal(workflows, parts, fuel).Finished?
    ensures AcceptedTotal(workflows, parts, more) == AcceptedTotal(workflows, parts, fuel)
  {
    if parts != [] {
      AcceptedTotalMoreFuel(workflows, parts[..|parts| - 1], fuel, more);
      FollowMoreFuel(workflows, parts[|parts| - 1], START, fuel, more);
    }
  }

  /** The next part's contribution, for the loop below. */
  lemma AcceptedStep(journey: Part -> Fuelled<WorkflowName>, parts: seq<Part>, i: nat, sum: nat, end: WorkflowName)
    requires i < |parts| && AcceptedBy(journey, parts[..i]) == Finished(sum) && journey(parts[i]) == Finished(end)
    ensures AcceptedBy(journey, parts[..i + 1]) == Finished(if end == ACCEPTED then sum + Total(parts[i]) else sum)
  {
    assert parts[..i + 1][..i] == parts[..i];
  }

  /** A part that runs out of fuel makes the total run out too. */
  lemma {:induction false} AcceptedStuck(journey: Part -> Fuelled<WorkflowName>, parts: seq<Part>, i: nat)
    requires i < |parts| && journey(parts[i]) == OutOfFuel
    ensures AcceptedBy(journey, parts) == OutOfFuel
    decreases |parts|
  {
    var init := parts[..|parts| - 1];
    if i < |init| {
      assert init[i] == parts[i];
      AcceptedStuck(journey, init, i);
    }
  }

  /** `total_of_accepted_parts`: each part processed in turn, its total added when it ends
      at "A". */
  method TotalOfAcceptedParts(system: WorkflowSystem, fuel: nat) returns (r: Fuelled<nat>)
    ensures r == AcceptedTotal(system.workflows, system.parts, fuel)
  {
    var total := 0;
    ghost var journey := Journey(system.workflows, fuel);
    for i := 0 to |system.parts|
      invariant AcceptedBy(journey, system.parts[..i]) == Finished(total)
    {
      var end := ProcessPart(system, system.parts[i], fuel);
      if end.OutOfFuel? {
        AcceptedStuck(journey, system.parts, i);
        return OutOfFuel;
      }
      AcceptedStep(journey, system.parts, i, total, end.value);
      if end.value == ACCEPTED {
        total := total + Total(system.parts[i]);
      }
    }
    assert system.parts[..|system.parts|] == system.parts;
    r := Finished(total);
  }

  // ---------------------------------------------------------------------------------------
  // Names and rules from text

  /** `WorkflowName::from_str`: the first three characters, with a space for each one
      missing. It never fails. */
  function NameOf(text: String): WorkflowName
  {
    WorkflowName(if |text| > 0 then text[0] else ' ',
                 if |text| > 1 then text[1] else ' ',
                 if |text| > 2 then text[2] else ' ')
  }

  /** A name written out without its padding spaces. */
  function NameText(name: WorkflowName): (text: String)
    ensures |text| <= 3
    ensures forall k :: 0 <= k < |text| ==> text[k] in {name.first, name.second, name.third}
  {
    if name.third != ' ' then [name.first, name.second, name.third]
    else if name.second != ' ' then [name.first, name.second]
    else if name.first != ' ' then [name.first]
    else []
  }

  /** Reading a written-out name gives the name back. */
  lemma NameRoundTrip(name: WorkflowName)
    ensures NameOf(NameText(name)) == name
  {
  }

  /** Characters after the third do not count, and a short name reads as if padded. */
  lemma NameFirstThree(text: String, rest: String)
    ensures |text| >= 3 ==> NameOf(text + rest) == NameOf(text)
    ensures |text| < 3 ==> NameOf(text) == NameOf(text + seq(3 - |text|, _ => ' '))
  {
    if |text| >= 3 {
      assert (text + rest)[..3] == text[..3];
    }
  }

  function PropertyOf(c: char): (r: Option<Property>)
    ensures r.Some? <==> c in "xmas"
  {
    if c == 'x' then Some(X)
    else if c == 'm' then Some(M)
    else if c == 'a' then Some(A)
    else if c == 's' then Some(S)
    else None
  }

  function PropertyChar(property: Property): char
  {
    match property
    case X => 'x'
    case M => 'm'
    case A => 'a'
    case S => 's'
  }

  function ComparisonOf(c: char): (r: Option<Ordering>)
    ensures r.Some? <==> c in "<>"
    ensures r != Some(Equal)
  {
    if c == '>' then Some(Greater) else if c == '<' then Some(Less) else None
  }

  function ComparisonChar(comparison: Ordering): char
  {
    match comparison
    case Less => '<'
    case Equal => '='
    case Greater => '>'
  }

  /** `WorkStep::from_str`: the text before the first ':' is a property letter, '<' or '>'
      and a `u32` comparator; the text after it names the target. Anything else is an error. */
  function StepOf(text: String): (r: Result<WorkStep>)
    ensures r.Ok? ==> r.value.comparison != Equal && r.value.comparator < U32_LIMIT
  {
    match SplitOnce(text, ":")
    case None => Err
    case Some(halves) =>
      var rule := halves.0;
      if |rule| < 2 then Err
      else match PropertyOf(rule[0])
        case None => Err
        case Some(property) =>
          match ComparisonOf(rule[1])
          case None => Err
          case Some(comparison) =>
            match ParseUnsigned(rule[2..], U32_LIMIT)
            case None => Err
            case Some(comparator) => Ok(WorkStep(property, comparison, comparator, NameOf(halves.1)))
  }

  /** The text is a rule exactly when, before its first ':', it has a property letter, '<'
      or '>' and a `u32` comparator; the target is named by what follows the ':'. */
  lemma StepAccepts(text: String)
    ensures StepOf(text).Ok? <==> SplitOnce(text, ":").Some? && |SplitOnce(text, ":").value.0| >= 2
                                  && text[0] in "xmas" && text[1] in "<>"
                                  && ParseUnsigned(SplitOnce(text, ":").value.0[2..], U32_LIMIT).Some?
    ensures StepOf(text).Ok? ==> StepOf(text).value.target == NameOf(SplitOnce(text, ":").value.1)
  {
    if SplitOnce(text, ":").Some? {
      var rule := SplitOnce(text, ":").value.0;
      if |rule| >= 2 {
        assert rule[0] == text[0] && rule[1] == text[1];
      }
    }
  }

  /** A rule written out as the puzzle input does: `a<2006:qkq`. */
  function StepText(step: WorkStep): String
  {
    [PropertyChar(step.property), ComparisonChar(step.comparison)] + Decimal(step.comparator) + ":" + NameText(step.target)
  }

  /** A rule with a `u32` comparator and a real comparison reads back from its text. */
  lemma StepRoundTrip(step: WorkStep)
    requires step.comparison != Equal && step.comparator < U32_LIMIT
    ensures StepOf(StepText(step)) == Ok(step)
  {
    var rule := [PropertyChar(step.property), ComparisonChar(step.comparison)] + Decimal(step.comparator);
    assert ':' !in rule by {
      assert forall k :: 2 <= k < |rule| ==> IsDigit(rule[k]);
    }
    FindAfter(rule, ":", NameText(step.target));
    assert rule[2..] == Decimal(step.comparator);
    ParseDecimal(step.comparator, U32_LIMIT);
    NameRoundTrip(step.target);
  }

  /** A text without ':' is never a rule. */
  lemma NoColonNoStep(text: String)
    requires ':' !in text
    ensures StepOf(text).Err?
  {
    NoOccurrence(text, ":");
  }

  // ---------------------------------------------------------------------------------------
  // Workflows from text

  /** The values of the items that parse, in order: `filter_map` over the parser. */
  function Successes<T>(parse: String -> Result<T>, items: seq<String>): (values: seq<T>)
    ensures |values| <= |items|
  {
    if items == [] then []
    else
      var rest := Successes(parse, items[..|items| - 1]);
      match parse(items[|items| - 1])
      case Ok(v) => rest + [v]
      case Err => rest
  }

  /** The index of the last item that does not parse, if any. */
  function LastFailure<T>(parse: String -> Result<T>, items: seq<String>): (r: Option<nat>)
    ensures r.None? <==> forall k :: 0 <= k < |items| ==> parse(items[k]).Ok?
    ensures r.Some? ==> r.value < |items| && parse(items[r.value]).Err?
                        && forall j :: r.value < j < |items| ==> parse(items[j]).Ok?
  {
    if items == [] then None
    else if parse(items[|items| - 1]).Err? then Some(|items| - 1)
    else
      var init := items[..|items| - 1];
      assert forall k :: 0 <= k < |init| ==> init[k] == items[k];
      LastFailure(parse, init)
  }

  /** The items that read as rules, in order. */
  function StepsIn(items: seq<String>): seq<WorkStep>
  {
    Successes(StepOf, items)
  }

  /** The last item that does not read as a rule, as a name: later ones replace earlier ones. */
  function DefaultIn(items: seq<String>): Option<WorkflowName>
  {
    match LastFailure(StepOf, items)
    case None => None
    case Some(k) => Some(NameOf(items[k]))
  }

  /** `Workflow::from_str`: a name, then comma-separated items between braces; the items
      that read as rules are its steps and the last one that does not is its default. With
      no such item, or without the braces, it is an error. */
  function WorkflowOf(line: String): Result<Workflow>
  {
    match StripSuffix(line, "}")
    case None => Err
    case Some(body) =>
      match SplitOnce(body, "{")
      case None => Err
      case Some(halves) =>
        var items := Split(halves.1, ",");
        match DefaultIn(items)
        case None => Err
        case Some(default) => Ok(Workflow(NameOf(halves.0), StepsIn(items), default))
  }

  /** The last failure is the one after which every item parses. */
  lemma LastFailureAt<T>(parse: String -> Result<T>, items: seq<String>, k: nat)
    requires k < |items| && parse(items[k]).Err?
    requires forall j :: k < j < |items| ==> parse(items[j]).Ok?
    ensures LastFailure(parse, items) == Some(k)
  {
    var r := LastFailure(parse, items);
    assert r.Some?;
  }

  /** Past the braces, a workflow is its name, its rules and its default. */
  lemma WorkflowItems(line: String, body: String, name: String, inner: String, items: seq<String>)
    requires line == body + "}" && SplitOnce(body, "{") == Some((name, inner)) && items == Split(inner, ",")
    ensures WorkflowOf(line).Ok? <==> DefaultIn(items).Some?
    ensures WorkflowOf(line).Ok? ==> WorkflowOf(line).value == Workflow(NameOf(name), StepsIn(items), DefaultIn(items).value)
  {
    assert StripSuffix(line, "}") == Some(body);
  }

  /** A line reads as a workflow exactly when it ends in '}', has a '{' before that, and
      some item between the braces is not a rule; the default is then the last such item. */
  lemma WorkflowAccepts(line: String, body: String, name: String, inner: String, items: seq<String>)
    requires line == body + "}" && SplitOnce(body, "{") == Some((name, inner)) && items == Split(inner, ",")
    ensures WorkflowOf(line).Ok? <==> exists k :: 0 <= k < |items| && StepOf(items[k]).Err?
    ensures forall k :: 0 <= k < |items| && StepOf(items[k]).Err? && (forall j :: k < j < |items| ==> StepOf(items[j]).Ok?)
                        ==> WorkflowOf(line) == Ok(Workflow(NameOf(name), StepsIn(items), NameOf(items[k])))
  {
    WorkflowItems(line, body, name, inner, items);
    forall k | 0 <= k < |items| && StepOf(items[k]).Err? && (forall j :: k < j < |items| ==> StepOf(items[j]).Ok?)
      ensures WorkflowOf(line) == Ok(Workflow(NameOf(name), StepsIn(items), NameOf(items[k])))
    {
      LastFailureAt(StepOf, items, k);
    }
  }

  /** Without the closing brace, or without an opening one, a line is no workflow. */
  lemma WorkflowRejects(line: String)
    requires StripSuffix(line, "}").None? || SplitOnce(StripSuffix(line, "}").value, "{").None?
    ensures WorkflowOf(line).Err?
  {
  }

  /** The items loop of `Workflow::from_str`: each item pushed as a step or kept as the
      default. */
  method ReadItems(items: seq<String>) returns (steps: seq<WorkStep>, default: Result<WorkflowName>)
    ensures steps == StepsIn(items)
    ensures default.Ok? <==> DefaultIn(items).Some?
    ensures default.Ok? ==> default.value == DefaultIn(items).value
  {
    steps := [];
    default := Err;
    for i := 0 to |items|
      invariant steps == StepsIn(items[..i])
      invariant default.Ok? <==> DefaultIn(items[..i]).Some?
      invariant default.Ok? ==> default.value == DefaultIn(items[..i]).value
    {
      assert items[..i + 1][..i] == items[..i];
      var step := StepOf(items[i]);
      if step.Ok? {
        steps := steps + [step.value];
      } else {
        default := Ok(NameOf(items[i]));
      }
    }
    assert items[..|items|] == items;
  }

  method ParseWorkflow(line: String) returns (r: Result<Workflow>)
    ensures r == WorkflowOf(line)
  {
    var body := StripSuffix(line, "}");
    if body.None? {
      return Err;
    }
    var halves := SplitOnce(body.value, "{");
    if halves.None? {
      return Err;
    }
    var name := NameOf(halves.value.0);
    var steps, default := ReadItems(Split(halves.value.1, ","));
    if default.Err? {
      return Err;
    }
    r := Ok(Workflow(name, steps, default.value));
  }

  /** The texts of rules. */
  function StepTexts(steps: seq<WorkStep>): (texts: seq<String>)
    ensures |texts| == |steps|
    ensures forall k :: 0 <= k < |steps| ==> texts[k] == StepText(steps[k])
  {
    seq(|steps|, k requires 0 <= k < |steps| => StepText(steps[k]))
  }

  /** The texts of a workflow's items: its rules, then its default. */
  function ItemTexts(w: Workflow): seq<String>
  {
    StepTexts(w.steps) + [NameText(w.default)]
  }

  /** A workflow written out as the puzzle input does: `px{a<2006:qkq,m>2090:A,rfg}`. */
  function WorkflowText(w: Workflow): String
  {
    NameText(w.name) + "{" + Join(ItemTexts(w), ",") + "}"
  }

  /** A workflow the input can express: rules with a real comparison and a `u32` comparator,
      no brace in its name, no comma in any target, and a default that does not read as a
      rule. */
  predicate Writable(w: Workflow)
  {
    && '{' !in NameText(w.name)
    && ',' !in NameText(w.default) && StepOf(NameText(w.default)).Err?
    && forall k :: 0 <= k < |w.steps| ==>
         w.steps[k].comparison != Equal && w.steps[k].comparator < U32_LIMIT && ',' !in NameText(w.steps[k].target)
  }

  /** When every item parses, all of them are kept and none fails. */
  lemma {:induction false} SuccessesAll<T>(parse: String -> Result<T>, items: seq<String>, values: seq<T>)
    requires |items| == |values|
    requires forall k :: 0 <= k < |items| ==> parse(items[k]) == Ok(values[k])
    ensures Successes(parse, items) == values && LastFailure(parse, items) == None
    decreases |items|
  {
    if items != [] {
      var n := |items| - 1;
      SuccessesAll(parse, items[..n], values[..n]);
      assert values == values[..n] + [values[n]];
    }
  }

  /** One more item that does not parse: nothing kept, and it is the last failure. */
  lemma FailureAppended<T>(parse: String -> Result<T>, items: seq<String>, item: String)
    requires parse(item).Err?
    ensures Successes(parse, items + [item]) == Successes(parse, items)
    ensures LastFailure(parse, items + [item]) == Some(|items|)
  {
    assert (items + [item])[..|items|] == items;
  }

  /** Every workflow the input can express reads back from its items. */
  lemma ItemsRead(w: Workflow)
    requires Writable(w)
    ensures StepsIn(ItemTexts(w)) == w.steps && DefaultIn(ItemTexts(w)) == Some(w.default)
  {
    var texts := StepTexts(w.steps);
    forall k | 0 <= k < |texts| ensures StepOf(texts[k]) == Ok(w.steps[k]) {
      StepRoundTrip(w.steps[k]);
    }
    SuccessesAll(StepOf, texts, w.steps);
    FailureAppended(StepOf, texts, NameText(w.default));
    NameRoundTrip(w.default);
  }

  /** A rule's text holds a comma only when its target's name does. */
  lemma StepTextComma(step: WorkStep)
    requires ',' !in NameText(step.target)
    ensures ',' !in StepText(step)
  {
    var digits := Decimal(step.comparator);
    assert forall k :: 0 <= k < |digits| ==> IsDigit(digits[k]);
  }

  /** Every workflow the input can express reads back from its text. */
  lemma WorkflowRoundTrip(w: Workflow)
    requires Writable(w)
    ensures WorkflowOf(WorkflowText(w)) == Ok(w)
  {
    var items := ItemTexts(w);
    var joined := Join(items, ",");
    var body := NameText(w.name) + "{" + joined;
    assert WorkflowText(w) == body + "}";
    assert StripSuffix(WorkflowText(w), "}") == Some(body);
    FindAfter(NameText(w.name), "{", joined);
    forall k | 0 <= k < |items| ensures ',' !in items[k] {
      if k < |w.steps| {
        StepTextComma(w.steps[k]);
      }
    }
    SplitJoin(items, ",");
    ItemsRead(w);
    NameRoundTrip(w.name);
  }

  // ---------------------------------------------------------------------------------------
  // Parts from text

  /** One `key=value` field of a part. */
  datatype Field = Field(property: Property, value: nat)

  function KeyOf(key: String): (r: Option<Property>)
    ensures r.Some? <==> key == "x" || key == "m" || key == "a" || key == "s"
    ensures r.Some? ==> key == [PropertyChar(r.value)]
  {
    if key == "x" then Some(X)
    else if key == "m" then Some(M)
    else if key == "a" then Some(A)
    else if key == "s" then Some(S)
    else None
  }

  /** A field: a key before the first '=' and a `u32` after it; a missing '=', a bad number
      or a key other than x, m, a and s is an error. */
  function FieldOf(element: String): (r: Result<Field>)
    ensures r.Ok? ==> r.value.value < U32_LIMIT
  {
    match SplitOnce(element, "=")
    case None => Err
    case Some(halves) =>
      match ParseUnsigned(halves.1, U32_LIMIT)
      case None => Err
      case Some(value) =>
        match KeyOf(halves.0)
        case None => Err
        case Some(property) => Ok(Field(property, value))
  }

  /** The ratings the fields set, a later field overwriting an earlier one with the same key. */
  function Ratings(fields: seq<Field>): (r: map<Property, nat>)
    ensures forall p :: p in r <==> exists k :: 0 <= k < |fields| && fields[k].property == p
  {
    if fields == [] then map[]
    else
      var init := fields[..|fields| - 1];
      assert forall k :: 0 <= k < |init| ==> init[k] == fields[k];
      Ratings(init)[fields[|fields| - 1].property := fields[|fields| - 1].value]
  }

  /** The rating of a property is the value of the last field with its key. */
  lemma {:induction false} RatingsLast(fields: seq<Field>, k: nat)
    requires k < |fields|
    requires forall j :: k < j < |fields| ==> fields[j].property != fields[k].property
    ensures Ratings(fields)[fields[k].property] == fields[k].value
    decreases |fields|
  {
    var init := fields[..|fields| - 1];
    if k < |init| {
      assert forall j :: k < j < |init| ==> init[j] == fields[j];
      RatingsLast(init, k);
    }
  }

  /** The part the fields describe, when every one of the four keys is set at least once. */
  function FromFields(elements: seq<String>): Result<Part>
  {
    match ParseEach(FieldOf, elements)
    case Err => Err
    case Ok(fields) =>
      var ratings := Ratings(fields);
      if X in ratings && M in ratings && A in ratings && S in ratings
      then Ok(Part(ratings[X], ratings[M], ratings[A], ratings[S]))
      else Err
  }

  /** `Part::from_str`: comma-separated fields between braces. */
  function PartOf(line: String): Result<Part>
  {
    match StripPrefix(line, "{")
    case None => Err
    case Some(inner) =>
      match StripSuffix(inner, "}")
      case None => Err
      case Some(body) => FromFields(Split(body, ","))
  }

  /** The braces are stripped from a line that has them. */
  lemma PartBody(line: String, body: String)
    requires line == "{" + body + "}"
    ensures PartOf(line) == FromFields(Split(body, ","))
  {
    assert line[..1] == "{" && line[1..] == body + "}";
    var inner := body + "}";
    assert inner[..|inner| - 1] == body;
  }

  /** Some element of the text is a field setting `p`. */
  predicate SetsKey(elements: seq<String>, p: Property)
  {
    exists k :: 0 <= k < |elements| && FieldOf(elements[k]).Ok? && FieldOf(elements[k]).value.property == p
  }

  /** With every element a field, a property has a rating exactly when some element sets it. */
  lemma RatingsSet(elements: seq<String>, fields: seq<Field>, p: Property)
    requires ParseEach(FieldOf, elements) == Ok(fields)
    ensures p in Ratings(fields) <==> SetsKey(elements, p)
  {
    if p in Ratings(fields) {
      var k :| 0 <= k < |fields| && fields[k].property == p;
      ParseEachEntry(FieldOf, elements, k);
    }
    if SetsKey(elements, p) {
      var k :| 0 <= k < |elements| && FieldOf(elements[k]).Ok? && FieldOf(elements[k]).value.property == p;
      ParseEachEntry(FieldOf, elements, k);
    }
  }

  /** The fields describe a part exactly when every element is a field and every property
      is set by one of them. */
  lemma PartAccepts(elements: seq<String>)
    ensures FromFields(elements).Ok? <==> ((forall k :: 0 <= k < |elements| ==> FieldOf(elements[k]).Ok?)
                                          && SetsKey(elements, X) && SetsKey(elements, M)
                                          && SetsKey(elements, A) && SetsKey(elements, S))
  {
    if ParseEach(FieldOf, elements).Ok? {
      var fields := ParseEach(FieldOf, elements).value;
      forall k | 0 <= k < |elements| ensures FieldOf(elements[k]).Ok? {
        ParseEachEntry(FieldOf, elements, k);
      }
      RatingsSet(elements, fields, X);
      RatingsSet(elements, fields, M);
      RatingsSet(elements, fields, A);
      RatingsSet(elements, fields, S);
    } else if forall k :: 0 <= k < |elements| ==> FieldOf(elements[k]).Ok? {
      ParseEachAll(FieldOf, elements, seq(|elements|, j requires 0 <= j < |elements| => FieldOf(elements[j]).value));
    }
  }

  /** The slot the parser keeps for one property. */
  function Slot(ratings: map<Property, nat>, p: Property): Option<nat>
  {
    if p in ratings then Some(ratings[p]) else None
  }

  /** One field of `Part::from_str`: split at '=', the value parsed, then the key matched. */
  method ReadField(element: String) returns (r: Result<Field>)
    ensures r == FieldOf(element)
  {
    var halves := SplitOnce(element, "=");
    if halves.None? {
      return Err;
    }
    var value := ParseUnsigned(halves.value.1, U32_LIMIT);
    if value.None? {
      return Err;
    }
    var key := halves.value.0;
    if key == "x" {
      r := Ok(Field(X, value.value));
    } else if key == "m" {
      r := Ok(Field(M, value.value));
    } else if key == "a" {
      r := Ok(Field(A, value.value));
    } else if key == "s" {
      r := Ok(Field(S, value.value));
    } else {
      r := Err;
    }
  }

  /** The field loop of `Part::from_str`: each field stored in the slot of its key, a later
      one overwriting an earlier one, and every slot required at the end. */
  method ReadFields(elements: seq<String>) returns (r: Result<Part>)
    ensures r == FromFields(elements)
  {
    var x: Option<nat>, m: Option<nat>, a: Option<nat>, s: Option<nat> := None, None, None, None;
    ghost var fields := [];
    for i := 0 to |elements|
      invariant ParseEach(FieldOf, elements[..i]) == Ok(fields)
      invariant x == Slot(Ratings(fields), X) && m == Slot(Ratings(fields), M)
      invariant a == Slot(Ratings(fields), A) && s == Slot(Ratings(fields), S)
    {
      var field := ReadField(elements[i]);
      if field.Err? {
        ParseEachFails(FieldOf, elements, i);
        return Err;
      }
      match field.value.property {
        case X => x := Some(field.value.value);
        case M => m := Some(field.value.value);
        case A => a := Some(field.value.value);
        case S => s := Some(field.value.value);
      }
      ParseEachExtend(FieldOf, elements, i, field.value);
      assert (fields + [field.value])[..|fields|] == fields;
      fields := fields + [field.value];
    }
    assert elements[..|elements|] == elements;
    if x.None? || m.None? || a.None? || s.None? {
      return Err;
    }
    r := Ok(Part(x.value, m.value, a.value, s.value));
  }

  method ParsePart(line: String) returns (r: Result<Part>)
    ensures r == PartOf(line)
  {
    var inner := StripPrefix(line, "{");
    if inner.None? {
      return Err;
    }
    var body := StripSuffix(inner.value, "}");
    if body.None? {
      return Err;
    }
    r := ReadFields(Split(body.value, ","));
  }

  /** A field as the puzzle input writes it: `x=787`. */
  function FieldText(p: Property, value: nat): String
  {
    [PropertyChar(p)] + "=" + Decimal(value)
  }

  /** The fields of a part, in the order the puzzle input writes them. */
  function FieldTexts(part: Part): seq<String>
  {
    [FieldText(X, part.x), FieldText(M, part.m), FieldText(A, part.a), FieldText(S, part.s)]
  }

  /** A part written out as the puzzle input does: `{x=787,m=2655,a=1222,s=2876}`. */
  function PartText(part: Part): String
  {
    "{" + Join(FieldTexts(part), ",") + "}"
  }

  /** A field written as its key, '=' and its decimal value reads back. */
  lemma FieldRoundTrip(p: Property, value: nat)
    requires value < U32_LIMIT
    ensures FieldOf(FieldText(p, value)) == Ok(Field(p, value))
    ensures ',' !in FieldText(p, value)
  {
    FindAfter([PropertyChar(p)], "=", Decimal(value));
    ParseDecimal(value, U32_LIMIT);
    var digits := Decimal(value);
    assert forall k :: 0 <= k < |digits| ==> IsDigit(digits[k]);
  }

  /** Four fields, one per property, set each rating to its field's value. */
  lemma RatingsOfFour(part: Part)
    ensures var ratings := Ratings([Field(X, part.x), Field(M, part.m), Field(A, part.a), Field(S, part.s)]);
            X in ratings && M in ratings && A in ratings && S in ratings
            && Part(ratings[X], ratings[M], ratings[A], ratings[S]) == part
  {
    var fields := [Field(X, part.x), Field(M, part.m), Field(A, part.a), Field(S, part.s)];
    RatingsLast(fields, 0);
    RatingsLast(fields, 1);
    RatingsLast(fields, 2);
    RatingsLast(fields, 3);
  }

  /** The four field texts of a part read as its four fields. */
  lemma FieldsRead(part: Part, texts: seq<String>, fields: seq<Field>)
    requires part.x < U32_LIMIT && part.m < U32_LIMIT && part.a < U32_LIMIT && part.s < U32_LIMIT
    requires texts == FieldTexts(part)
    requires fields == [Field(X, part.x), Field(M, part.m), Field(A, part.a), Field(S, part.s)]
    ensures ParseEach(FieldOf, texts) == Ok(fields)
    ensures forall k :: 0 <= k < |texts| ==> ',' !in texts[k]
  {
    FieldRoundTrip(X, part.x);
    FieldRoundTrip(M, part.m);
    FieldRoundTrip(A, part.a);
    FieldRoundTrip(S, part.s);
    forall k | 0 <= k < 4 ensures FieldOf(texts[k]) == Ok(fields[k]) && ',' !in texts[k] {
      if k == 0 {
        assert texts[k] == FieldText(X, part.x);
      } else if k == 1 {
        assert texts[k] == FieldText(M, part.m);
      } else if k == 2 {
        assert texts[k] == FieldText(A, part.a);
      } else {
        assert texts[k] == FieldText(S, part.s);
      }
    }
    ParseEachAll(FieldOf, texts, fields);
  }

  /** Every part with `u32` ratings reads back from its text. */
  lemma PartRoundTrip(part: Part)
    requires part.x < U32_LIMIT && part.m < U32_LIMIT && part.a < U32_LIMIT && part.s < U32_LIMIT
    ensures PartOf(PartText(part)) == Ok(part)
  {
    var texts := FieldTexts(part);
    PartBody(PartText(part), Join(texts, ","));
    FieldsRead(part, texts, [Field(X, part.x), Field(M, part.m), Field(A, part.a), Field(S, part.s)]);
    SplitJoin(texts, ",");
    RatingsOfFour(part);
  }

  // ---------------------------------------------------------------------------------------
  // The whole system from text

  /** Workflows by name; a later workflow with the same name replaces an earlier one. */
  function Index(workflows: seq<Workflow>): (r: map<WorkflowName, Workflow>)
    ensures forall name :: name in r ==> r[name].name == name
    ensures forall name :: name in r <==> exists k :: 0 <= k < |workflows| && workflows[k].name == name
  {
    if workflows == [] then map[]
    else
      var init := workflows[..|workflows| - 1];
      var last := workflows[|workflows| - 1];
      assert forall k :: 0 <= k < |init| ==> init[k] == workflows[k];
      Index(init)[last.name := last]
  }

  /** Inserting one more workflow under its name. */
  lemma IndexSnoc(workflows: seq<Workflow>, w: Workflow)
    ensures Index(workflows + [w]) == Index(workflows)[w.name := w]
  {
    assert (workflows + [w])[..|workflows|] == workflows;
  }

  /** The workflow kept under a name is the last one with that name. */
  lemma {:induction false} IndexLast(workflows: seq<Workflow>, k: nat)
    requires k < |workflows|
    requires forall j :: k < j < |workflows| ==> workflows[j].name != workflows[k].name
    ensures Index(workflows)[workflows[k].name] == workflows[k]
    decreases |workflows|
  {
    var init := workflows[..|workflows| - 1];
    if k < |init| {
      assert forall j :: k < j < |init| ==> init[j] == workflows[j];
      IndexLast(init, k);
    }
  }

  /** `WorkflowSystem::from_str`: workflows, one per line, up to the first blank line, then
      parts one per line; any line that does not read makes it an error. */
  function SystemOf(input: String): Result<WorkflowSystem>
  {
    match SplitOnce(input, "\n\n")
    case None => Err
    case Some(halves) =>
      match ParseEach(WorkflowOf, Lines(halves.0))
      case Err => Err
      case Ok(workflows) =>
        match ParseEach(PartOf, Lines(halves.1))
        case Err => Err
        case Ok(parts) => Ok(WorkflowSystem(Index(workflows), parts))
  }

  /** The workflow loop: each line parsed and inserted under its name. */
  method ReadWorkflows(lines: seq<String>) returns (r: Result<map<WorkflowName, Workflow>>)
    ensures ParseEach(WorkflowOf, lines).Err? <==> r.Err?
    ensures r.Ok? ==> r.value == Index(ParseEach(WorkflowOf, lines).value)
  {
    var workflows := map[];
    ghost var read := [];
    for i := 0 to |lines|
      invariant ParseEach(WorkflowOf, lines[..i]) == Ok(read) && workflows == Index(read)
    {
      var workflow := ParseWorkflow(lines[i]);
      if workflow.Err? {
        ParseEachFails(WorkflowOf, lines, i);
        return Err;
      }
      ParseEachExtend(WorkflowOf, lines, i, workflow.value);
      IndexSnoc(read, workflow.value);
      workflows := workflows[workflow.value.name := workflow.value];
      read := read + [workflow.value];
    }
    assert lines[..|lines|] == lines;
    r := Ok(workflows);
  }

  /** The part loop: each line parsed and pushed. */
  method ReadParts(lines: seq<String>) returns (r: Result<seq<Part>>)
    ensures r == ParseEach(PartOf, lines)
  {
    var parts := [];
    for i := 0 to |lines|
      invariant ParseEach(PartOf, lines[..i]) == Ok(parts)
    {
      var part := ParsePart(lines[i]);
      if part.Err? {
        ParseEachFails(PartOf, lines, i);
        return Err;
      }
      ParseEachExtend(PartOf, lines, i, part.value);
      parts := parts + [part.value];
    }
    assert lines[..|lines|] == lines;
    r := Ok(parts);
  }

  method ParseSystem(input: String) returns (r: Result<WorkflowSystem>)
    ensures r == SystemOf(input)
  {
    var halves := SplitOnce(input, "\n\n");
    if halves.None? {
      return Err;
    }
    var workflows := ReadWorkflows(Lines(halves.value.0));
    if workflows.Err? {
      return Err;
    }
    var parts := ReadParts(Lines(halves.value.1));
    if parts.Err? {
      return Err;
    }
    r := Ok(WorkflowSystem(workflows.value, parts.value));
  }

  /** `part_one`: the total of the accepted parts, or nothing when the input does not read. */
  method PartOne(input: String, fuel: nat) returns (r: Option<Fuelled<nat>>)
    ensures r.None? <==> SystemOf(input).Err?
    ensures r.Some? ==> r.value == AcceptedTotal(SystemOf(input).value.workflows, SystemOf(input).value.parts, fuel)
  {
    var system := ParseSystem(input);
    if system.Err? {
      return None;
    }
    var total := TotalOfAcceptedParts(system.value, fuel);
    r := Some(total);
  }

  // ---------------------------------------------------------------------------------------
  // The worked example

  // The eleven workflows of the example system.
  function Px(): Workflow { Workflow(WorkflowName('p', 'x', ' '), [WorkStep(A, Less, 2006, WorkflowName('q', 'k', 'q')), WorkStep(M, Greater, 2090, ACCEPTED)], WorkflowName('r', 'f', 'g')) }
  function Pv(): Workflow { Workflow(WorkflowName('p', 'v', ' '), [WorkStep(A, Greater, 1716, REJECTED)], ACCEPTED) }
  function Lnx(): Workflow { Workflow(WorkflowName('l', 'n', 'x'), [WorkStep(M, Greater, 1548, ACCEPTED)], ACCEPTED) }
  function Rfg(): Workflow { Workflow(WorkflowName('r', 'f', 'g'), [WorkStep(S, Less, 537, WorkflowName('g', 'd', ' ')), WorkStep(X, Greater, 2440, REJECTED)], ACCEPTED) }
  function Qs(): Workflow { Workflow(WorkflowName('q', 's', ' '), [WorkStep(S, Greater, 3448, ACCEPTED)], WorkflowName('l', 'n', 'x')) }
  function Qkq(): Workflow { Workflow(WorkflowName('q', 'k', 'q'), [WorkStep(X, Less, 1416, ACCEPTED)], WorkflowName('c', 'r', 'n')) }
  function Crn(): Workflow { Workflow(WorkflowName('c', 'r', 'n'), [WorkStep(X, Greater, 2662, ACCEPTED)], REJECTED) }
  function In(): Workflow { Workflow(WorkflowName('i', 'n', ' '), [WorkStep(S, Less, 1351, WorkflowName('p', 'x', ' '))], WorkflowName('q', 'q', 'z')) }
  function Qqz(): Workflow { Workflow(WorkflowName('q', 'q', 'z'), [WorkStep(S, Greater, 2770, WorkflowName('q', 's', ' ')), WorkStep(M, Less, 1801, WorkflowName('h', 'd', 'j'))], REJECTED) }
  function Gd(): Workflow { Workflow(WorkflowName('g', 'd', ' '), [WorkStep(A, Greater, 3333, REJECTED)], REJECTED) }
  function Hdj(): Workflow { Workflow(WorkflowName('h', 'd', 'j'), [WorkStep(M, Greater, 838, ACCEPTED)], WorkflowName('p', 'v', ' ')) }

  function ExampleWorkflows(): map<WorkflowName, Workflow>
  {
    map[
      WorkflowName('p', 'x', ' ') := Px(),
      WorkflowName('p', 'v', ' ') := Pv(),
      WorkflowName('l', 'n', 'x') := Lnx(),
      WorkflowName('r', 'f', 'g') := Rfg(),
      WorkflowName('q', 's', ' ') := Qs(),
      WorkflowName('q', 'k', 'q') := Qkq(),
      WorkflowName('c', 'r', 'n') := Crn(),
      WorkflowName('i', 'n', ' ') := In(),
      WorkflowName('q', 'q', 'z') := Qqz(),
      WorkflowName('g', 'd', ' ') := Gd(),
      WorkflowName('h', 'd', 'j') := Hdj()
    ]
  }

  /** A map that files each example workflow under its own name and has no workflow for
      "A" and "R". */
  predicate FilesExample(ws: map<WorkflowName, Workflow>)
  {
    && In().name in ws && ws[In().name] == In() && Px().name in ws && ws[Px().name] == Px()
    && Pv().name in ws && ws[Pv().name] == Pv() && Lnx().name in ws && ws[Lnx().name] == Lnx()
    && Rfg().name in ws && ws[Rfg().name] == Rfg() && Qs().name in ws && ws[Qs().name] == Qs()
    && Qkq().name in ws && ws[Qkq().name] == Qkq() && Crn().name in ws && ws[Crn().name] == Crn()
    && Qqz().name in ws && ws[Qqz().name] == Qqz() && Gd().name in ws && ws[Gd().name] == Gd()
    && Hdj().name in ws && ws[Hdj().name] == Hdj()
    && ACCEPTED !in ws && REJECTED !in ws
  }

  lemma ExampleFiled()
    ensures FilesExample(ExampleWorkflows())
  {
  }

  /** One workflow passed: the journey goes on from its destination with one less fuel. */
  lemma Hop(workflows: map<WorkflowName, Workflow>, part: Part, w: Workflow, fuel: nat, next: WorkflowName)
    requires w.name in workflows && workflows[w.name] == w && Destination(w, part) == next
    ensures Follow(workflows, part, w.name, fuel + 1) == Follow(workflows, part, next, fuel)
  {
  }

  /** The first example part goes in, qqz, qs, lnx and ends accepted. */
  lemma FirstJourney(ws: map<WorkflowName, Workflow>, fuel: nat)
    requires FilesExample(ws) && fuel >= 4
    ensures Follow(ws, Part(787, 2655, 1222, 2876), START, fuel) == Finished(ACCEPTED)
  {
    var part := Part(787, 2655, 1222, 2876);
    Hop(ws, part, In(), fuel - 1, Qqz().name);
    Hop(ws, part, Qqz(), fuel - 2, Qs().name);
    Hop(ws, part, Qs(), fuel - 3, Lnx().name);
    Hop(ws, part, Lnx(), fuel - 4, ACCEPTED);
  }

  /** The second example part goes in, px, rfg, gd and ends rejected. */
  lemma SecondJourney(ws: map<WorkflowName, Workflow>, fuel: nat)
    requires FilesExample(ws) && fuel >= 4
    ensures Follow(ws, Part(1679, 44, 2067, 496), START, fuel) == Finished(REJECTED)
  {
    var part := Part(1679, 44, 2067, 496);
    Hop(ws, part, In(), fuel - 1, Px().name);
    Hop(ws, part, Px(), fuel - 2, Rfg().name);
    Hop(ws, part, Rfg(), fuel - 3, Gd().name);
    Hop(ws, part, Gd(), fuel - 4, REJECTED);
  }

  /** The third example part goes in, qqz, hdj, pv and ends accepted. */
  lemma ThirdJourney(ws: map<WorkflowName, Workflow>, fuel: nat)
    requires FilesExample(ws) && fuel >= 4
    ensures Follow(ws, Part(2036, 264, 79, 2244), START, fuel) == Finished(ACCEPTED)
  {
    var part := Part(2036, 264, 79, 2244);
    Hop(ws, part, In(), fuel - 1, Qqz().name);
    Hop(ws, part, Qqz(), fuel - 2, Hdj().name);
    Hop(ws, part, Hdj(), fuel - 3, Pv().name);
    Hop(ws, part, Pv(), fuel - 4, ACCEPTED);
  }

  /** The fourth example part goes in, px, qkq, crn and ends rejected. */
  lemma FourthJourney(ws: map<WorkflowName, Workflow>, fuel: nat)
    requires FilesExample(ws) && fuel >= 4
    ensures Follow(ws, Part(2461, 1339, 466, 291), START, fuel) == Finished(REJECTED)
  {
    var part := Part(2461, 1339, 466, 291);
    Hop(ws, part, In(), fuel - 1, Px().name);
    Hop(ws, part, Px(), fuel - 2, Qkq().name);
    Hop(ws, part, Qkq(), fuel - 3, Crn().name);
    Hop(ws, part, Crn(), fuel - 4, REJECTED);
  }

  /** The fifth example part goes in, px, rfg and ends accepted. */
  lemma FifthJourney(ws: map<WorkflowName, Workflow>, fuel: nat)
    requires FilesExample(ws) && fuel >= 3
    ensures Follow(ws, Part(2127, 1623, 2188, 1013), START, fuel) == Finished(ACCEPTED)
  {
    var part := Part(2127, 1623, 2188, 1013);
    Hop(ws, part, In(), fuel - 1, Px().name);
    Hop(ws, part, Px(), fuel - 2, Rfg().name);
    Hop(ws, part, Rfg(), fuel - 3, ACCEPTED);
  }

  /** The five example parts. */
  function ExampleParts(): seq<Part>
  {
    [Part(787, 2655, 1222, 2876), Part(1679, 44, 2067, 496), Part(2036, 264, 79, 2244),
     Part(2461, 1339, 466, 291), Part(2127, 1623, 2188, 1013)]
  }

  /** The accepted parts of the example, the first, third and fifth, total 19114. */
  lemma AcceptedExampleTotal(journey: Part -> Fuelled<WorkflowName>, parts: seq<Part>)
    requires |parts| == 5
    requires parts[0] == Part(787, 2655, 1222, 2876) && journey(parts[0]) == Finished(ACCEPTED)
    requires journey(parts[1]) == Finished(REJECTED)
    requires parts[2] == Part(2036, 264, 79, 2244) && journey(parts[2]) == Finished(ACCEPTED)
    requires journey(parts[3]) == Finished(REJECTED)
    requires parts[4] == Part(2127, 1623, 2188, 1013) && journey(parts[4]) == Finished(ACCEPTED)
    ensures AcceptedBy(journey, parts) == Finished(19114)
  {
    assert parts[..0] == [];
    AcceptedStep(journey, parts, 0, 0, ACCEPTED);
    AcceptedStep(journey, parts, 1, 7540, REJECTED);
    AcceptedStep(journey, parts, 2, 7540, ACCEPTED);
    AcceptedStep(journey, parts, 3, 12163, REJECTED);
    AcceptedStep(journey, parts, 4, 12163, ACCEPTED);
    assert parts[..5] == parts;
  }

  /** `test_system_process` and the total of the example system: with fuel for four
      workflows, the parts end at A, R, A, R, A and the accepted ones total 19114. */
  lemma ExampleSystem(fuel: nat)
    requires fuel >= 4
    ensures var ws := ExampleWorkflows();
            && Follow(ws, Part(787, 2655, 1222, 2876), START, fuel) == Finished(ACCEPTED)
            && Follow(ws, Part(1679, 44, 2067, 496), START, fuel) == Finished(REJECTED)
            && Follow(ws, Part(2036, 264, 79, 2244), START, fuel) == Finished(ACCEPTED)
            && Follow(ws, Part(2461, 1339, 466, 291), START, fuel) == Finished(REJECTED)
            && Follow(ws, Part(2127, 1623, 2188, 1013), START, fuel) == Finished(ACCEPTED)
    ensures AcceptedTotal(ExampleWorkflows(), ExampleParts(), fuel) == Finished(19114)
  {
    var ws := ExampleWorkflows();
    ExampleFiled();
    FirstJourney(ws, fuel);
    SecondJourney(ws, fuel);
    ThirdJourney(ws, fuel);
    FourthJourney(ws, fuel);
    FifthJourney(ws, fuel);
    AcceptedExampleTotal(Journey(ws, fuel), ExampleParts());
  }

  /** `test_part_matches_work_step`. */
  lemma MatchExamples()
    ensures Matches(Part(1679, 44, 2067, 496), WorkStep(S, Less, 1351, Px().name))
    ensures !Matches(Part(787, 2655, 1222, 2876), WorkStep(S, Less, 1351, Px().name))
    ensures Matches(Part(787, 2655, 1222, 2876), WorkStep(A, Greater, 1201, WorkflowName('z', 'x', 'y')))
  {
  }

  /** `test_workflow_process`: qqz sends its three test parts to qs, hdj and R. */
  lemma ProcessExamples()
    ensures Destination(Qqz(), Part(50, 1000, 1374, 2771)) == Qs().name
    ensures Destination(Qqz(), Part(50, 1000, 1374, 2541)) == Hdj().name
    ensures Destination(Qqz(), Part(50, 1807, 1374, 2541)) == REJECTED
  {
  }

  /** `test_work_step_from_str`. */
  lemma StepExamples(first: String, second: String)
    requires first == "a>2006:qkq" && second == "s<537:gd"
    ensures StepOf(first) == Ok(WorkStep(A, Greater, 2006, Qkq().name))
    ensures StepOf(second) == Ok(WorkStep(S, Less, 537, Gd().name))
  {
    assert Decimal(2006) == "2006" && Decimal(537) == "537";
    assert first == StepText(WorkStep(A, Greater, 2006, Qkq().name));
    assert second == StepText(WorkStep(S, Less, 537, Gd().name));
    StepRoundTrip(WorkStep(A, Greater, 2006, Qkq().name));
    StepRoundTrip(WorkStep(S, Less, 537, Gd().name));
  }

  /** The text of the workflow px of the example. */
  lemma PxText()
    ensures WorkflowText(Px()) == "px{" + "a<2006:qkq" + "," + "m>2090:A" + "," + "rfg" + "}"
  {
    PxSteps();
    assert ItemTexts(Px()) == ["a<2006:qkq", "m>2090:A", "rfg"];
  }

  /** The texts of px's two rules. */
  lemma PxSteps()
    ensures StepText(Px().steps[0]) == "a<2006:qkq" && StepText(Px().steps[1]) == "m>2090:A"
  {
    PxDecimals();
  }

  /** The decimal texts of px's two comparators. */
  lemma PxDecimals()
    ensures Decimal(2006) == "2006" && Decimal(2090) == "2090"
  {
  }

  /** px can be written out and read back. */
  lemma PxWritable()
    ensures Writable(Px())
  {
    NoColonNoStep("rfg");
    assert NameText(Px().default) == "rfg";
  }

  /** `test_workflow_from_str`, first case. */
  lemma WorkflowExamplePx(line: String)
    requires line == "px{a<2006:qkq,m>2090:A,rfg}"
    ensures WorkflowOf(line) == Ok(Px())
  {
    assert line == "px{" + "a<2006:qkq" + "," + "m>2090:A" + "," + "rfg" + "}";
    PxText();
    PxWritable();
    WorkflowRoundTrip(Px());
  }

  /** The text of the workflow qs of the example. */
  lemma QsText()
    ensures WorkflowText(Qs()) == "qs{" + "s>3448:A" + "," + "lnx" + "}"
  {
    assert Decimal(3448) == "3448";
    var w := Qs();
    assert StepText(w.steps[0]) == "s>3448:A";
    assert ItemTexts(w) == ["s>3448:A", "lnx"];
  }

  /** `test_workflow_from_str`, second case. */
  lemma WorkflowExampleQs(line: String)
    requires line == "qs{s>3448:A,lnx}"
    ensures WorkflowOf(line) == Ok(Qs())
  {
    assert line == "qs{" + "s>3448:A" + "," + "lnx" + "}";
    QsText();
    NoColonNoStep("lnx");
    WorkflowRoundTrip(Qs());
  }

  /** A part's text from the texts of its four ratings. */
  lemma PartTextOf(part: Part, x: String, m: String, a: String, s: String)
    requires x == Decimal(part.x) && m == Decimal(part.m) && a == Decimal(part.a) && s == Decimal(part.s)
    ensures PartText(part) == "{" + (("x=" + x) + "," + ("m=" + m) + "," + ("a=" + a) + "," + ("s=" + s)) + "}"
  {
    JoinFour("x=" + x, "m=" + m, "a=" + a, "s=" + s, ",");
    assert FieldText(X, part.x) == "x=" + x;
    assert FieldText(M, part.m) == "m=" + m;
    assert FieldText(A, part.a) == "a=" + a;
    assert FieldText(S, part.s) == "s=" + s;
  }

  /** The decimal texts of the first example part's ratings. */
  lemma DecimalsFirst()
    ensures Decimal(787) == "787" && Decimal(2655) == "2655" && Decimal(1222) == "1222" && Decimal(2876) == "2876"
  {
  }

  /** The decimal texts of the second example part's ratings. */
  lemma DecimalsSecond()
    ensures Decimal(2461) == "2461" && Decimal(1339) == "1339" && Decimal(466) == "466" && Decimal(291) == "291"
  {
  }

  /** `test_part_from_str`, first case. */
  lemma PartExampleFirst(line: String)
    requires line == "{x=787,m=2655,a=1222,s=2876}"
    ensures PartOf(line) == Ok(Part(787, 2655, 1222, 2876))
  {
    assert line == "{" + (("x=" + "787") + "," + ("m=" + "2655") + "," + ("a=" + "1222") + "," + ("s=" + "2876")) + "}";
    var part := Part(787, 2655, 1222, 2876);
    DecimalsFirst();
    PartTextOf(part, "787", "2655", "1222", "2876");
    assert line == PartText(part);
    PartRoundTrip(part);
  }

  /** `test_part_from_str`, second case. */
  lemma PartExampleSecond(line: String)
    requires line == "{x=2461,m=1339,a=466,s=291}"
    ensures PartOf(line) == Ok(Part(2461, 1339, 466, 291))
  {
    assert line == "{" + (("x=" + "2461") + "," + ("m=" + "1339") + "," + ("a=" + "466") + "," + ("s=" + "291")) + "}";
    var part := Part(2461, 1339, 466, 291);
    DecimalsSecond();
    PartTextOf(part, "2461", "1339", "466", "291");
    assert line == PartText(part);
    PartRoundTrip(part);
  }
}
