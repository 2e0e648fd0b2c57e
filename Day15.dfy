/** Day 15: the HASH of an initialisation step, and the HASHMAP procedure that files lenses
    into 256 boxes. The boxes are the field of the class `LightBoxArray`, which `Insert`,
    `Remove` and `Step` update in place; the pure functions `Inserted`, `Removed` and
    `Stepped` state what each update does, and the lemmas state what the procedure keeps. */
module Day15 {
  import opened Wrappers
  import opened Text
  import opened Divisibility

  const BOXES: nat := 256

  // ---------------------------------------------------------------------------------------
  // HASH

  /** One character of `hash`: add its code, times 17, modulo 256. */
  function Mix(acc: nat, c: char): (h: nat)
    ensures h < BOXES
  {
    (acc + c as nat) * 17 % BOXES
  }

  /** The fold of `hash`, started from `acc`. */
  function HashFrom(acc: nat, s: String): (h: nat)
    requires acc < BOXES
    ensures h < BOXES
    decreases |s|
  {
    if s == [] then acc else HashFrom(Mix(acc, s[0]), s[1..])
  }

  /** `hash`. */
  function Hash(s: String): (h: nat)
    ensures h < BOXES
  {
    HashFrom(0, s)
  }

  function Pow17(n: nat): (p: nat)
    ensures p > 0
  {
    if n == 0 then 1 else 17 * Pow17(n - 1)
  }

  /** The polynomial that the hash reduces: each character's code times 17 to the power of
      its distance from the end, plus one. */
  function Polynomial(s: String): nat
  {
    if s == [] then 0 else s[0] as nat * Pow17(|s|) + Polynomial(s[1..])
  }

  /** A remainder taken early does not change the final remainder. */
  lemma ModEarly(x: nat, k: nat, y: nat)
    ensures (x % BOXES * k + y) % BOXES == (x * k + y) % BOXES
  {
    var q := x / BOXES;
    assert x * k + y == x % BOXES * k + y + BOXES * (q * k) by {
      DivMod(x, BOXES);
      MulAssociates(BOXES, q, k);
    }
    ShiftRemainder(x % BOXES * k + y, BOXES, q * k);
  }

  lemma Regroup(acc: nat, c: nat, q: nat, rest: nat)
    ensures (acc + c) * 17 * q + rest == acc * (17 * q) + (c * (17 * q) + rest)
  {
    MulAssociates(acc + c, 17, q);
  }

  /** The fold computes the polynomial of its characters, carrying the start value along. */
  lemma {:induction false} HashFromPolynomial(acc: nat, s: String)
    requires acc < BOXES
    ensures HashFrom(acc, s) == (acc * Pow17(|s|) + Polynomial(s)) % BOXES
    decreases |s|
  {
    if s != [] {
      var c, t := s[0] as nat, s[1..];
      var q, rest := Pow17(|t|), Polynomial(t);
      var next := Mix(acc, s[0]);
      HashFromPolynomial(next, t);
      assert Pow17(|s|) == 17 * q;
      assert Polynomial(s) == c * (17 * q) + rest;
      calc {
        HashFrom(acc, s);
        HashFrom(next, t);
        (next * q + rest) % BOXES;
        { ModEarly((acc + c) * 17, q, rest); }
        ((acc + c) * 17 * q + rest) % BOXES;
        { Regroup(acc, c, q, rest); }
        (acc * (17 * q) + (c * (17 * q) + rest)) % BOXES;
      }
    }
  }

  /** The hash of a step is its polynomial modulo 256. */
  lemma HashIsPolynomial(s: String)
    ensures Hash(s) == Polynomial(s) % BOXES
  {
    HashFromPolynomial(0, s);
  }

  /** The hash of a two-character string, from its intermediate values. */
  lemma Hash2(a: char, b: char, x: nat, h: nat)
    requires Mix(0, a) == x && Mix(x, b) == h
    ensures Hash([a, b]) == h
  {
    assert [a, b][1..] == [b] && [b][1..] == [];
    assert HashFrom(0, [a, b]) == HashFrom(x, [b]);
    assert HashFrom(x, [b]) == HashFrom(h, []);
  }

  /** The hash of a three-character string, from its intermediate values. */
  lemma Hash3(a: char, b: char, c: char, x: nat, y: nat, h: nat)
    requires Mix(0, a) == x && Mix(x, b) == y && Mix(y, c) == h
    ensures Hash([a, b, c]) == h
  {
    assert [a, b, c][1..] == [b, c] && [b, c][1..] == [c] && [c][1..] == [];
    assert HashFrom(0, [a, b, c]) == HashFrom(x, [b, c]);
    assert HashFrom(x, [b, c]) == HashFrom(y, [c]);
    assert HashFrom(y, [c]) == HashFrom(h, []);
  }

  /** The hash of a four-character string, from its intermediate values. */
  lemma Hash4(a: char, b: char, c: char, d: char, x: nat, y: nat, z: nat, h: nat)
    requires Mix(0, a) == x && Mix(x, b) == y && Mix(y, c) == z && Mix(z, d) == h
    ensures Hash([a, b, c, d]) == h
  {
    assert [a, b, c, d][1..] == [b, c, d] && [b, c, d][1..] == [c, d] && [c, d][1..] == [d] && [d][1..] == [];
    assert HashFrom(0, [a, b, c, d]) == HashFrom(x, [b, c, d]);
    assert HashFrom(x, [b, c, d]) == HashFrom(y, [c, d]);
    assert HashFrom(y, [c, d]) == HashFrom(z, [d]);
    assert HashFrom(z, [d]) == HashFrom(h, []);
  }

  /** The hashes that the source's tests state. */
  lemma HashExamples()
    ensures Hash("rn=1") == 30 && Hash("qp-") == 14 && Hash("ab=5") == 197 && Hash("ot=7") == 231
  {
    Hash4('r', 'n', '=', '1', 146, 0, 13, 30);
    Hash3('q', 'p', '-', 129, 1, 14);
    Hash4('a', 'b', '=', '5', 113, 3, 64, 197);
    Hash4('o', 't', '=', '7', 95, 3, 64, 231);
  }

  /** The total of the hashes of the steps. */
  function HashSum(steps: seq<String>): (total: nat)
    ensures total < BOXES * (|steps| + 1)
  {
    if steps == [] then 0 else HashSum(steps[..|steps| - 1]) + Hash(steps[|steps| - 1])
  }

  /** `part_one`: the sum of the hashes of the comma-separated steps. */
  function PartOne(input: String): (total: nat)
    ensures total < BOXES * (|Split(Trim(input), ",")| + 1)
  {
    HashSum(Split(Trim(input), ","))
  }

  // ---------------------------------------------------------------------------------------
  // The lenses in one box

  datatype Lens = Lens(name: String, focalLength: nat)

  /** The slot of the first lens with the label, as `iter().enumerate().find` gives it. */
  function LabelSlot(lenses: seq<Lens>, name: String): (slot: Option<nat>)
    ensures slot.Some? ==> slot.value < |lenses| && lenses[slot.value].name == name
    ensures slot.Some? ==> forall j :: 0 <= j < slot.value ==> lenses[j].name != name
    ensures slot.None? ==> forall j :: 0 <= j < |lenses| ==> lenses[j].name != name
  {
    if lenses == [] then None
    else if lenses[0].name == name then Some(0)
    else match LabelSlot(lenses[1..], name)
      case None => None
      case Some(j) => Some(j + 1)
  }

  /** What `insert` does to the lens's box: the lens replaces the first lens with its label,
      in that lens's slot, or joins the back of the box. */
  function Inserted(lenses: seq<Lens>, lens: Lens): (r: seq<Lens>)
  {
    match LabelSlot(lenses, lens.name)
    case Some(slot) => lenses[slot := lens]
    case None => lenses + [lens]
  }

  /** What `remove` does to the label's box: `retain` the lenses with other labels, in order. */
  function Removed(lenses: seq<Lens>, name: String): (r: seq<Lens>)
    ensures |r| <= |lenses|
  {
    if lenses == [] then []
    else
      var last := lenses[|lenses| - 1];
      Removed(lenses[..|lenses| - 1], name) + (if last.name == name then [] else [last])
  }

  /** No two lenses of a box share a label. */
  predicate Distinct(lenses: seq<Lens>)
  {
    forall i, j :: 0 <= i < j < |lenses| ==> lenses[i].name != lenses[j].name
  }

  /** A lens is left after `remove` exactly when it was there and has another label. */
  lemma {:induction false} RemovedMembers(lenses: seq<Lens>, name: String, x: Lens)
    ensures x in Removed(lenses, name) <==> x in lenses && x.name != name
    decreases |lenses|
  {
    if lenses != [] {
      var init := lenses[..|lenses| - 1];
      RemovedMembers(init, name, x);
      assert lenses == init + [lenses[|lenses| - 1]];
    }
  }

  /** `remove` keeps the lenses of a box distinct. */
  lemma {:induction false} RemovedDistinct(lenses: seq<Lens>, name: String)
    requires Distinct(lenses)
    ensures Distinct(Removed(lenses, name))
    decreases |lenses|
  {
    if lenses != [] {
      var init, last := lenses[..|lenses| - 1], lenses[|lenses| - 1];
      RemovedDistinct(init, name);
      if last.name != name {
        var r := Removed(init, name);
        forall i | 0 <= i < |r| ensures r[i].name != last.name {
          RemovedMembers(init, name, r[i]);
        }
      }
    }
  }

  /** Removing a label that no lens carries changes nothing. */
  lemma {:induction false} RemovedAbsent(lenses: seq<Lens>, name: String)
    requires forall j :: 0 <= j < |lenses| ==> lenses[j].name != name
    ensures Removed(lenses, name) == lenses
    decreases |lenses|
  {
    if lenses != [] {
      RemovedAbsent(lenses[..|lenses| - 1], name);
    }
  }

  /** Replacing a lens by one with the same label is invisible once that label is removed. */
  lemma {:induction false} RemovedUpdate(lenses: seq<Lens>, slot: nat, lens: Lens)
    requires slot < |lenses| && lenses[slot].name == lens.name
    ensures Removed(lenses[slot := lens], lens.name) == Removed(lenses, lens.name)
    decreases |lenses|
  {
    var n := |lenses|;
    var updated := lenses[slot := lens];
    if slot < n - 1 {
      assert updated[..n - 1] == lenses[..n - 1][slot := lens];
      RemovedUpdate(lenses[..n - 1], slot, lens);
    } else {
      assert updated[..n - 1] == lenses[..n - 1];
    }
  }

  /** `insert` touches no lens with another label, and keeps their order: removing the
      lens's label afterwards gives what removing it before gives. */
  lemma InsertedKeepsOthers(lenses: seq<Lens>, lens: Lens)
    ensures Removed(Inserted(lenses, lens), lens.name) == Removed(lenses, lens.name)
  {
    match LabelSlot(lenses, lens.name)
    case Some(slot) =>
      RemovedUpdate(lenses, slot, lens);
    case None =>
      assert (lenses + [lens])[..|lenses|] == lenses;
  }

  /** After `insert` the box holds the lens, and it has grown by one lens exactly when no
      lens had the label before. */
  lemma InsertedPlacesLens(lenses: seq<Lens>, lens: Lens)
    ensures lens in Inserted(lenses, lens)
    ensures |Inserted(lenses, lens)| ==
              |lenses| + (if exists j :: 0 <= j < |lenses| && lenses[j].name == lens.name then 0 else 1)
  {
    match LabelSlot(lenses, lens.name)
    case Some(slot) =>
      assert Inserted(lenses, lens)[slot] == lens;
    case None =>
      assert Inserted(lenses, lens)[|lenses|] == lens;
  }

  /** `insert` keeps the lenses of a box distinct, and then the lens is the only one with
      its label. */
  lemma InsertedDistinct(lenses: seq<Lens>, lens: Lens)
    requires Distinct(lenses)
    ensures Distinct(Inserted(lenses, lens))
    ensures forall x :: x in Inserted(lenses, lens) && x.name == lens.name ==> x == lens
  {
    var r := Inserted(lenses, lens);
    match LabelSlot(lenses, lens.name)
    case Some(slot) =>
      forall x | x in r && x.name == lens.name ensures x == lens {
        var i :| 0 <= i < |r| && r[i] == x;
      }
    case None =>
  }

  // ---------------------------------------------------------------------------------------
  // The array of boxes

  /** 256 empty boxes. */
  function EmptyBoxes(): (boxes: seq<seq<Lens>>)
    ensures |boxes| == BOXES && forall b :: 0 <= b < BOXES ==> boxes[b] == []
  {
    seq(BOXES, _ => [])
  }

  /** The arrangement that the procedure keeps: 256 boxes, each lens in the box its label
      hashes to, and no label twice in a box. */
  ghost predicate Arranged(boxes: seq<seq<Lens>>)
  {
    |boxes| == BOXES &&
    (forall b, j :: 0 <= b < BOXES && 0 <= j < |boxes[b]| ==> Hash(boxes[b][j].name) == b) &&
    (forall b :: 0 <= b < BOXES ==> Distinct(boxes[b]))
  }

  lemma EmptyArranged()
    ensures Arranged(EmptyBoxes())
  {
  }

  /** One step of the procedure: take out the lenses with a label, or put a lens in. */
  datatype Operation = RemoveLens(name: String) | InsertLens(lens: Lens)

  function Apply(boxes: seq<seq<Lens>>, op: Operation): (r: seq<seq<Lens>>)
    requires |boxes| == BOXES
    ensures |r| == BOXES
  {
    match op
    case RemoveLens(name) => boxes[Hash(name) := Removed(boxes[Hash(name)], name)]
    case InsertLens(lens) => boxes[Hash(lens.name) := Inserted(boxes[Hash(lens.name)], lens)]
  }

  /** Every step keeps the arrangement. */
  lemma ApplyArranged(boxes: seq<seq<Lens>>, op: Operation)
    requires Arranged(boxes)
    ensures Arranged(Apply(boxes, op))
  {
    var r: seq<seq<Lens>> := Apply(boxes, op);
    match op
    case RemoveLens(name) =>
      var h := Hash(name);
      RemovedDistinct(boxes[h], name);
      forall j | 0 <= j < |r[h]| ensures Hash(r[h][j].name) == h {
        RemovedMembers(boxes[h], name, r[h][j]);
      }
    case InsertLens(lens) =>
      var h := Hash(lens.name);
      InsertedDistinct(boxes[h], lens);
  }

  /** Inserting a lens whose label is not in its box appends it. */
  lemma Appended(boxes: seq<seq<Lens>>, lens: Lens)
    requires |boxes| == BOXES
    requires forall j :: 0 <= j < |boxes[Hash(lens.name)]| ==> boxes[Hash(lens.name)][j].name != lens.name
    ensures Apply(boxes, InsertLens(lens)) == boxes[Hash(lens.name) := boxes[Hash(lens.name)] + [lens]]
  {
  }

  /** Inserting a lens whose label is first found at `slot` replaces that lens. */
  lemma Replaced(boxes: seq<seq<Lens>>, lens: Lens, slot: nat)
    requires |boxes| == BOXES && slot < |boxes[Hash(lens.name)]|
    requires boxes[Hash(lens.name)][slot].name == lens.name
    requires forall j :: 0 <= j < slot ==> boxes[Hash(lens.name)][j].name != lens.name
    ensures Apply(boxes, InsertLens(lens)) == boxes[Hash(lens.name) := boxes[Hash(lens.name)][slot := lens]]
  {
  }

  /** Removing a label that its box does not hold changes nothing. */
  lemma RemovedNothing(boxes: seq<seq<Lens>>, name: String)
    requires |boxes| == BOXES
    requires forall j :: 0 <= j < |boxes[Hash(name)]| ==> boxes[Hash(name)][j].name != name
    ensures Apply(boxes, RemoveLens(name)) == boxes
  {
    RemovedAbsent(boxes[Hash(name)], name);
  }

  /** Removing the label of the first lens of a box whose other lenses carry other labels. */
  lemma RemovedFrom(boxes: seq<seq<Lens>>, name: String)
    requires |boxes| == BOXES && |boxes[Hash(name)]| > 0 && boxes[Hash(name)][0].name == name
    requires forall j :: 0 < j < |boxes[Hash(name)]| ==> boxes[Hash(name)][j].name != name
    ensures Apply(boxes, RemoveLens(name)) == boxes[Hash(name) := boxes[Hash(name)][1..]]
  {
    var lenses := boxes[Hash(name)];
    RemovedAbsent(lenses[1..], name);
    RemovedFirst(lenses, name);
  }

  /** `remove` drops a first lens with the label and filters the rest. */
  lemma {:induction false} RemovedFirst(lenses: seq<Lens>, name: String)
    requires |lenses| > 0 && lenses[0].name == name
    ensures Removed(lenses, name) == Removed(lenses[1..], name)
    decreases |lenses|
  {
    if |lenses| > 1 {
      var n := |lenses|;
      RemovedFirst(lenses[..n - 1], name);
      assert lenses[..n - 1][1..] == lenses[1..][..n - 2];
    }
  }

  /** In an arranged array, removing a label leaves no lens with it anywhere. */
  lemma RemoveLeavesNone(boxes: seq<seq<Lens>>, name: String)
    requires Arranged(boxes)
    ensures forall b, x :: 0 <= b < BOXES && x in Apply(boxes, RemoveLens(name))[b] ==> x.name != name
  {
    var r: seq<seq<Lens>> := Apply(boxes, RemoveLens(name));
    forall b, x: Lens | 0 <= b < BOXES && x in r[b] ensures x.name != name {
      if b == Hash(name) {
        RemovedMembers(boxes[b], name, x);
      } else {
        var j :| 0 <= j < |r[b]| && r[b][j] == x;
      }
    }
  }

  /** A step as the procedure writes it: "label-" removes, "label=n" inserts. */
  function ParseStep(step: String): (op: Option<Operation>)
  {
    match StripSuffix(step, "-")
    case Some(name) => Some(RemoveLens(name))
    case None =>
      match SplitOnce(step, "=")
      case None => None
      case Some((name, focal)) =>
        match ParseUnsigned(focal, USIZE_LIMIT)
        case None => None
        case Some(focalLength) => Some(InsertLens(Lens(name, focalLength)))
  }

  /** The text of a step. */
  function StepText(op: Operation): String
  {
    match op
    case RemoveLens(name) => name + "-"
    case InsertLens(lens) => lens.name + "=" + Decimal(lens.focalLength)
  }

  /** Reading the text of a step gives the step back, for labels without '=' and focal
      lengths that fit a `usize`. */
  lemma ParseStepText(op: Operation)
    requires Writable(op)
    ensures ParseStep(StepText(op)) == Some(op)
  {
    match op
    case RemoveLens(name) =>
    case InsertLens(lens) =>
      var digits := Decimal(lens.focalLength);
      DecimalRoundTrip(lens.focalLength);
      assert StepText(op)[|StepText(op)| - 1..] == [digits[|digits| - 1]];
      FindAfter(lens.name, "=", digits);
      ParseDecimal(lens.focalLength, USIZE_LIMIT);
  }

  /** What `step` does to the boxes: a step that does not parse changes nothing. */
  function Stepped(boxes: seq<seq<Lens>>, step: String): (r: seq<seq<Lens>>)
    requires |boxes| == BOXES
    ensures |r| == BOXES
  {
    match ParseStep(step)
    case None => boxes
    case Some(op) => Apply(boxes, op)
  }

  /** The steps one after another. */
  function Executed(boxes: seq<seq<Lens>>, steps: seq<String>): (r: seq<seq<Lens>>)
    requires |boxes| == BOXES
    ensures |r| == BOXES
  {
    if steps == [] then boxes else Stepped(Executed(boxes, steps[..|steps| - 1]), steps[|steps| - 1])
  }

  lemma ExecutedStep(boxes: seq<seq<Lens>>, steps: seq<String>, i: nat)
    requires |boxes| == BOXES && i < |steps|
    ensures Executed(boxes, steps[..i + 1]) == Stepped(Executed(boxes, steps[..i]), steps[i])
  {
    assert steps[..i + 1][..i] == steps[..i];
  }

  /** The operations one after another. */
  function ApplyAll(boxes: seq<seq<Lens>>, ops: seq<Operation>): (r: seq<seq<Lens>>)
    requires |boxes| == BOXES
    ensures |r| == BOXES
  {
    if ops == [] then boxes else Apply(ApplyAll(boxes, ops[..|ops| - 1]), ops[|ops| - 1])
  }

  lemma ApplyAllStep(boxes: seq<seq<Lens>>, ops: seq<Operation>, i: nat)
    requires |boxes| == BOXES && i < |ops|
    ensures ApplyAll(boxes, ops[..i + 1]) == Apply(ApplyAll(boxes, ops[..i]), ops[i])
  {
    assert ops[..i + 1][..i] == ops[..i];
  }

  /** The texts of operations. */
  function Texts(ops: seq<Operation>): (steps: seq<String>)
    ensures |steps| == |ops| && forall i :: 0 <= i < |ops| ==> steps[i] == StepText(ops[i])
  {
    if ops == [] then [] else Texts(ops[..|ops| - 1]) + [StepText(ops[|ops| - 1])]
  }

  /** Operations that can be written as text. */
  predicate Writable(op: Operation)
  {
    op.InsertLens? ==> '=' !in op.lens.name && op.lens.focalLength < USIZE_LIMIT
  }

  /** Running the texts of operations does what the operations do. */
  lemma {:induction false} ExecutedTexts(boxes: seq<seq<Lens>>, ops: seq<Operation>)
    requires |boxes| == BOXES && forall i :: 0 <= i < |ops| ==> Writable(ops[i])
    ensures Executed(boxes, Texts(ops)) == ApplyAll(boxes, ops)
    decreases |ops|
  {
    if ops != [] {
      var init := ops[..|ops| - 1];
      ExecutedTexts(boxes, init);
      ParseStepText(ops[|ops| - 1]);
      assert Texts(ops)[..|ops| - 1] == Texts(init);
    }
  }

  /** The procedure keeps the arrangement whatever the steps. */
  lemma {:induction false} ExecutedArranged(boxes: seq<seq<Lens>>, steps: seq<String>)
    requires Arranged(boxes)
    ensures Arranged(Executed(boxes, steps))
    decreases |steps|
  {
    if steps != [] {
      var before := Executed(boxes, steps[..|steps| - 1]);
      ExecutedArranged(boxes, steps[..|steps| - 1]);
      match ParseStep(steps[|steps| - 1])
      case None =>
      case Some(op) => ApplyArranged(before, op);
    }
  }

  // ---------------------------------------------------------------------------------------
  // Focusing power

  /** The power of the first `n` lenses of the box whose number, counted from one, is `factor`. */
  function LensPower(factor: nat, lenses: seq<Lens>, n: nat): nat
    requires n <= |lenses|
  {
    if n == 0 then 0 else LensPower(factor, lenses, n - 1) + factor * n * lenses[n - 1].focalLength
  }

  /** The power of the first `n` boxes. */
  function BoxPower(boxes: seq<seq<Lens>>, n: nat): nat
    requires n <= |boxes|
  {
    if n == 0 then 0 else BoxPower(boxes, n - 1) + LensPower(n, boxes[n - 1], |boxes[n - 1]|)
  }

  /** `total_focusing_power`: the sum over every lens of one plus its box, times one plus its
      slot, times its focal length. */
  function FocusingPower(boxes: seq<seq<Lens>>): nat
  {
    BoxPower(boxes, |boxes|)
  }

  /** Empty boxes have no power. */
  lemma {:induction false} EmptyBoxPower(boxes: seq<seq<Lens>>, n: nat)
    requires n <= |boxes| && forall b :: 0 <= b < |boxes| ==> boxes[b] == []
    ensures BoxPower(boxes, n) == 0
  {
    if n > 0 {
      EmptyBoxPower(boxes, n - 1);
    }
  }

  /** Changing one box changes the total by the change in that box's own power. */
  lemma {:induction false} BoxPowerUpdate(boxes: seq<seq<Lens>>, b: nat, lenses: seq<Lens>, n: nat)
    requires b < |boxes| && n <= |boxes|
    ensures BoxPower(boxes[b := lenses], n) + (if b < n then LensPower(b + 1, boxes[b], |boxes[b]|) else 0)
         == BoxPower(boxes, n) + (if b < n then LensPower(b + 1, lenses, |lenses|) else 0)
  {
    if n > 0 {
      BoxPowerUpdate(boxes, b, lenses, n - 1);
    }
  }

  /** The total of an array whose only non-empty boxes are `b` and `c` is their two powers. */
  lemma TwoBoxesPower(b: nat, x: seq<Lens>, c: nat, y: seq<Lens>)
    requires b < c < BOXES
    ensures FocusingPower(EmptyBoxes()[b := x][c := y]) == LensPower(b + 1, x, |x|) + LensPower(c + 1, y, |y|)
  {
    EmptyBoxPower(EmptyBoxes(), BOXES);
    BoxPowerUpdate(EmptyBoxes(), b, x, BOXES);
    BoxPowerUpdate(EmptyBoxes()[b := x], c, y, BOXES);
  }

  // ---------------------------------------------------------------------------------------
  // The example

  lemma ExampleHashes()
    ensures Hash("rn") == 0 && Hash("cm") == 0 && Hash("qp") == 1
    ensures Hash("pc") == 3 && Hash("ot") == 3 && Hash("ab") == 3
  {
    Hash2('r', 'n', 146, 0);
    Hash2('c', 'm', 147, 0);
    Hash2('q', 'p', 129, 1);
    Hash2('p', 'c', 112, 3);
    Hash2('o', 't', 95, 3);
    Hash2('a', 'b', 113, 3);
  }

  /** Inserting a lens whose label the box lacks appends it. */
  lemma InsertedNew(lenses: seq<Lens>, lens: Lens)
    requires forall j :: 0 <= j < |lenses| ==> lenses[j].name != lens.name
    ensures Inserted(lenses, lens) == lenses + [lens]
  {
  }

  /** Inserting a lens whose label is first found at `slot` puts it in that slot. */
  lemma InsertedAt(lenses: seq<Lens>, lens: Lens, slot: nat)
    requires slot < |lenses| && lenses[slot].name == lens.name
    requires forall j :: 0 <= j < slot ==> lenses[j].name != lens.name
    ensures Inserted(lenses, lens) == lenses[slot := lens]
  {
  }

  /** The source's test of the box array, on box 3 where "pc", "ot" and "ab" all land:
      pc=4, ot=9, ab=5 line the lenses up in that order, ot=13 replaces ot in its slot and
      pc- takes pc out, for any three different labels. */
  lemma BoxThreeExample(pc: String, ot: String, ab: String)
    requires pc != ot && pc != ab && ot != ab
    ensures Inserted(Inserted(Inserted([], Lens(pc, 4)), Lens(ot, 9)), Lens(ab, 5)) == [Lens(pc, 4), Lens(ot, 9), Lens(ab, 5)]
    ensures Inserted([Lens(pc, 4), Lens(ot, 9), Lens(ab, 5)], Lens(ot, 13)) == [Lens(pc, 4), Lens(ot, 13), Lens(ab, 5)]
    ensures Removed([Lens(pc, 4), Lens(ot, 13), Lens(ab, 5)], pc) == [Lens(ot, 13), Lens(ab, 5)]
  {
    var pc4, ot9, ab5, ot13 := Lens(pc, 4), Lens(ot, 9), Lens(ab, 5), Lens(ot, 13);
    InsertedNew([], pc4);
    InsertedNew([pc4], ot9);
    assert [pc4] + [ot9] == [pc4, ot9];
    InsertedNew([pc4, ot9], ab5);
    assert [pc4, ot9] + [ab5] == [pc4, ot9, ab5];
    InsertedAt([pc4, ot9, ab5], ot13, 1);
    var box := [pc4, ot13, ab5];
    RemovedFirst(box, pc);
    RemovedAbsent(box[1..], pc);
  }

  /** The example of part two in box 0: rn=1, cm-, cm=2 leave rn 1 and cm 2. */
  lemma ExampleBoxZero(rn: String, cm: String)
    requires rn != cm
    ensures Inserted(Removed(Inserted([], Lens(rn, 1)), cm), Lens(cm, 2)) == [Lens(rn, 1), Lens(cm, 2)]
  {
    var rn1, cm2 := Lens(rn, 1), Lens(cm, 2);
    InsertedNew([], rn1);
    RemovedAbsent([rn1], cm);
    InsertedNew([rn1], cm2);
    assert [rn1] + [cm2] == [rn1, cm2];
  }

  /** The example of part two in box 1: qp=3, qp- leave it empty. */
  lemma ExampleBoxOne(qp: String)
    ensures Removed(Inserted([], Lens(qp, 3)), qp) == []
  {
    InsertedNew([], Lens(qp, 3));
    RemovedFirst([Lens(qp, 3)], qp);
  }

  /** The example of part two in box 3: pc=4, ot=9, ab=5, pc-, pc=6, ot=7 leave ot 7, ab 5
      and pc 6. */
  lemma ExampleBoxThree(pc: String, ot: String, ab: String)
    requires pc != ot && pc != ab && ot != ab
    ensures Inserted(Inserted(Removed([Lens(pc, 4), Lens(ot, 9), Lens(ab, 5)], pc), Lens(pc, 6)), Lens(ot, 7))
              == [Lens(ot, 7), Lens(ab, 5), Lens(pc, 6)]
  {
    var pc4, ot9, ab5, pc6, ot7 := Lens(pc, 4), Lens(ot, 9), Lens(ab, 5), Lens(pc, 6), Lens(ot, 7);
    var box := [pc4, ot9, ab5];
    RemovedFirst(box, pc);
    RemovedAbsent(box[1..], pc);
    InsertedNew([ot9, ab5], pc6);
    assert [ot9, ab5] + [pc6] == [ot9, ab5, pc6];
    InsertedAt([ot9, ab5, pc6], ot7, 0);
  }

  /** The example's final arrangement, with box 0 holding rn 1 and cm 2 and box 3 holding
      ot 7, ab 5 and pc 6, has a total focusing power of 145. */
  lemma ExampleFocusingPower()
    ensures FocusingPower(EmptyBoxes()[0 := [Lens("rn", 1), Lens("cm", 2)]][3 := [Lens("ot", 7), Lens("ab", 5), Lens("pc", 6)]]) == 145
  {
    var zero, three := [Lens("rn", 1), Lens("cm", 2)], [Lens("ot", 7), Lens("ab", 5), Lens("pc", 6)];
    TwoBoxesPower(0, zero, 3, three);
    assert LensPower(1, zero, 2) == 1 * 1 * 1 + 1 * 2 * 2;
    assert LensPower(4, three, 3) == 4 * 1 * 7 + 4 * 2 * 5 + 4 * 3 * 6 by {
      assert LensPower(4, three, 1) == 28;
      assert LensPower(4, three, 2) == 68;
    }
  }

  // ---------------------------------------------------------------------------------------
  // The light box array

  class LightBoxArray {
    var boxes: seq<seq<Lens>>

    ghost predicate Valid()
      reads this
    {
      Arranged(boxes)
    }

    /** `LightBoxArray::new`: 256 empty boxes. */
    constructor ()
      ensures boxes == EmptyBoxes() && Valid()
    {
      var empty := [];
      for i := 0 to BOXES
        invariant |empty| == i && forall b :: 0 <= b < i ==> empty[b] == []
      {
        empty := empty + [[]];
      }
      boxes := empty;
      EmptyArranged();
    }

    /** `insert`: find the lens's label in its box and replace that lens, or push it. */
    method Insert(lens: Lens)
      requires |boxes| == BOXES
      modifies this
      ensures boxes == Apply(old(boxes), InsertLens(lens))
      ensures old(Valid()) ==> Valid()
    {
      var h := Hash(lens.name);
      var lenses := boxes[h];
      var slot := 0;
      while slot < |lenses| && lenses[slot].name != lens.name
        invariant slot <= |lenses|
        invariant forall j :: 0 <= j < slot ==> lenses[j].name != lens.name
      {
        slot := slot + 1;
      }
      if slot < |lenses| {
        boxes := boxes[h := lenses[slot := lens]];
      } else {
        boxes := boxes[h := lenses + [lens]];
      }
      if old(Valid()) {
        ApplyArranged(old(boxes), InsertLens(lens));
      }
    }

    /** `remove`: keep the lenses of the label's box that carry another label. */
    method Remove(name: String)
      requires |boxes| == BOXES
      modifies this
      ensures boxes == Apply(old(boxes), RemoveLens(name))
      ensures old(Valid()) ==> Valid()
    {
      var h := Hash(name);
      var lenses := boxes[h];
      var kept := [];
      for i := 0 to |lenses|
        invariant kept == Removed(lenses[..i], name)
      {
        assert lenses[..i + 1][..i] == lenses[..i];
        if lenses[i].name != name {
          kept := kept + [lenses[i]];
        }
      }
      assert lenses[..|lenses|] == lenses;
      boxes := boxes[h := kept];
      if old(Valid()) {
        ApplyArranged(old(boxes), RemoveLens(name));
      }
    }

    /** `step`: a step ending in '-' removes its label; "label=n" with `n` a `usize` inserts
        a lens; anything else is refused and changes nothing. */
    method Step(step: String) returns (done: bool)
      requires |boxes| == BOXES
      modifies this
      ensures done <==> ParseStep(step).Some?
      ensures boxes == Stepped(old(boxes), step)
      ensures old(Valid()) ==> Valid()
    {
      var name := StripSuffix(step, "-");
      if name.Some? {
        Remove(name.value);
        return true;
      }
      var parts := SplitOnce(step, "=");
      if parts.Some? {
        var focalLength := ParseUnsigned(parts.value.1, USIZE_LIMIT);
        if focalLength.Some? {
          Insert(Lens(parts.value.0, focalLength.value));
          return true;
        }
      }
      return false;
    }

    /** `total_focusing_power`. */
    function TotalFocusingPower(): nat
      reads this
    {
      FocusingPower(boxes)
    }
  }

  /** `part_two`: run every comma-separated step on a new array, then total its power. */
  method PartTwo(input: String) returns (power: nat)
    ensures power == FocusingPower(Executed(EmptyBoxes(), Split(Trim(input), ",")))
  {
    var lights := new LightBoxArray();
    var steps := Split(Trim(input), ",");
    for i := 0 to |steps|
      invariant lights.boxes == Executed(EmptyBoxes(), steps[..i])
    {
      ExecutedStep(EmptyBoxes(), steps, i);
      var _ := lights.Step(steps[i]);
    }
    assert steps[..|steps|] == steps;
    power := lights.TotalFocusingPower();
  }
}
