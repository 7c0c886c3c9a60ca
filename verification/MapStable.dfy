/** When the layout read out of a rendered file renders it to the same characters again. */
module MapStable {
  import opened JsStrings
  import opened JsonText
  import opened Sorting
  import opened MapFile
  import opened MapLayout
  import opened MapText

  /** How many spaces of padding a rendered object holds, its inner objects included. */
  function PaddingTotal(ms: seq<Member>, shape: MapShape, widest: nat): nat
    decreases ms, 0
  {
    if ms == [] then 0
    else
      Padding(ms[0].key, widest)
      + (match ms[0].value
         case Obj(inner) => PaddingTotal(inner, shape, Widest(inner, shape))
         case _ => 0)
      + PaddingTotal(ms[1..], shape, widest)
  }

  function KeyCount(ms: seq<Member>): nat
    decreases ms, 0
  {
    if ms == [] then 0
    else
      1 + (match ms[0].value case Obj(inner) => KeyCount(inner) case _ => 0) + KeyCount(ms[1..])
  }

  function LeadTotal(keys: seq<KeyLine>): nat {
    if keys == [] then 0 else keys[0].lead + LeadTotal(keys[1..])
  }

  /** By how much a key grows when it is written. */
  function Excess(m: Member): nat {
    if Length(Escape(m.key)) >= Length(m.key) then Length(Escape(m.key)) - Length(m.key) else 0
  }

  /** At least 98 in 100 keys grow by the same amount: a file without escapes always qualifies. */
  predicate EvenKeys(ms: seq<Member>) {
    Dominant(Map(Excess, ms)) * 100 >= 98 * |ms|
  }

  /** The layouts that survive being read back; a caller can check it before the write. */
  predicate KeepsLayout(ms: seq<Member>, nested: bool, shape: MapShape) {
    ms == []
    || (IndentOf(shape) >= 1
        && (PaddingTotal(ms, shape, Widest(ms, shape)) == 0 || (!nested && EvenKeys(ms))))
  }

  function Plain(shape: MapShape): MapShape {
    shape.(align := false)
  }

  /** The shape a file rendered with `shape` is read back as having. */
  function Redetected(ms: seq<Member>, nested: bool, shape: MapShape): MapShape {
    var layout := LayoutOf(KeyLinesOf(ms, 1, shape, Widest(ms, shape)), nested);
    MapShape(nested, shape.inner, Some(layout.indent), layout.align)
  }

  // ---- counting and summing key lines

  lemma {:induction false} LeadTotalAppend(a: seq<KeyLine>, b: seq<KeyLine>)
    ensures LeadTotal(a + b) == LeadTotal(a) + LeadTotal(b)
  {
    if a == [] {
      assert a + b == b;
    } else {
      assert (a + b)[1..] == a[1..] + b;
      LeadTotalAppend(a[1..], b);
    }
  }

  lemma {:induction false} LeadAtLeast(key: string, depth: nat, shape: MapShape, widest: nat)
    requires depth >= 1
    ensures IndentOf(shape) >= 1 ==> LeadFor(key, depth, shape, widest) >= IndentOf(shape)
    ensures IndentOf(shape) == 0 ==> LeadFor(key, depth, shape, widest) == Padding(key, widest)
  {
    var i := IndentOf(shape);
    assert i * depth == i + i * (depth - 1);
    assert i >= 0 && depth - 1 >= 0 ==> i * (depth - 1) >= 0;
  }

  /** With an indent, every key shows; without one, never more than every key. */
  lemma {:induction false} KeyLinesCounted(ms: seq<Member>, depth: nat, shape: MapShape, widest: nat)
    requires depth >= 1
    ensures |KeyLinesOf(ms, depth, shape, widest)| <= KeyCount(ms)
    ensures IndentOf(shape) >= 1 ==> |KeyLinesOf(ms, depth, shape, widest)| == KeyCount(ms)
    decreases ms, 0
  {
    if ms != [] {
      LeadAtLeast(ms[0].key, depth, shape, widest);
      if ms[0].value.Obj? {
        var inner := ms[0].value.members;
        KeyLinesCounted(inner, depth + 1, shape, Widest(inner, shape));
      }
      KeyLinesCounted(ms[1..], depth, shape, widest);
      KeyLinesLength(ms, depth, shape, widest);
    }
  }

  lemma {:induction false} KeyLinesLength(ms: seq<Member>, depth: nat, shape: MapShape, widest: nat)
    requires ms != []
    ensures |KeyLinesOf(ms, depth, shape, widest)|
         == |OwnKeyLine(ms[0].key, depth, shape, widest)| + |InnerKeyLines(ms[0], depth, shape)|
          + |KeyLinesOf(ms[1..], depth, shape, widest)|
  {
  }

  /** Without an indent, a key that is not padded does not show. */
  lemma {:induction false} KeyLinesMissOne(ms: seq<Member>, depth: nat, shape: MapShape, widest: nat, i: nat)
    requires depth >= 1 && IndentOf(shape) == 0
    requires i < |ms| && Padding(ms[i].key, widest) == 0
    ensures |KeyLinesOf(ms, depth, shape, widest)| < KeyCount(ms)
    decreases ms, 0
  {
    LeadAtLeast(ms[0].key, depth, shape, widest);
    if ms[0].value.Obj? {
      var inner := ms[0].value.members;
      KeyLinesCounted(inner, depth + 1, shape, Widest(inner, shape));
    }
    KeyLinesCounted(ms[1..], depth, shape, widest);
    KeyLinesLength(ms, depth, shape, widest);
    if i > 0 {
      KeyLinesMissOne(ms[1..], depth, shape, widest, i - 1);
    }
  }

  ghost predicate LeadsFrom(keys: seq<KeyLine>, n: nat) {
    forall i :: 0 <= i < |keys| ==> keys[i].lead >= n
  }

  lemma {:induction false} LeadsFromAppend(a: seq<KeyLine>, b: seq<KeyLine>, n: nat)
    requires LeadsFrom(a, n) && LeadsFrom(b, n)
    ensures LeadsFrom(a + b, n)
  {
  }

  /** Every key shows at least the indent before it, and at least one space whatever the indent. */
  lemma {:induction false} KeyLinesAtLeast(ms: seq<Member>, depth: nat, shape: MapShape, widest: nat)
    requires depth >= 1
    ensures LeadsFrom(KeyLinesOf(ms, depth, shape, widest), if IndentOf(shape) >= 1 then IndentOf(shape) else 1)
    decreases ms, 0
  {
    if ms != [] {
      var n := if IndentOf(shape) >= 1 then IndentOf(shape) else 1;
      var own, inner := OwnKeyLine(ms[0].key, depth, shape, widest), InnerKeyLines(ms[0], depth, shape);
      LeadAtLeast(ms[0].key, depth, shape, widest);
      if ms[0].value.Obj? {
        KeyLinesAtLeast(ms[0].value.members, depth + 1, shape, Widest(ms[0].value.members, shape));
      }
      KeyLinesAtLeast(ms[1..], depth, shape, widest);
      LeadsFromAppend(own, inner, n);
      LeadsFromAppend(own + inner, KeyLinesOf(ms[1..], depth, shape, widest), n);
    }
  }

  /** One key of every object is not padded: the longest. */
  lemma {:induction false} UnpaddedKey(ms: seq<Member>, shape: MapShape) returns (i: nat)
    requires ms != []
    ensures i < |ms| && Padding(ms[i].key, Widest(ms, shape)) == 0
  {
    i := 0;
    if Widest(ms, shape) > 0 {
      i :| 0 <= i < |ms| && Length(ms[i].key) == LongestKey(ms);
    }
  }

  lemma {:induction false} KeyLinesShowOwn(ms: seq<Member>, shape: MapShape, widest: nat, i: nat)
    requires IndentOf(shape) >= 1 && i < |ms| && Padding(ms[i].key, widest) == 0
    ensures KeyLine(IndentOf(shape), Escape(ms[i].key)) in KeyLinesOf(ms, 1, shape, widest)
  {
    if i == 0 {
      assert KeyLinesOf(ms, 1, shape, widest)[0] == KeyLine(IndentOf(shape), Escape(ms[0].key));
    } else {
      KeyLinesShowOwn(ms[1..], shape, widest, i - 1);
    }
  }

  function InnerKeyLines(m: Member, depth: nat, shape: MapShape): seq<KeyLine> {
    if m.value.Obj? then KeyLinesOf(m.value.members, depth + 1, shape, Widest(m.value.members, shape)) else []
  }

  lemma {:induction false} LeadTotalStep(ms: seq<Member>, depth: nat, shape: MapShape, widest: nat)
    requires ms != []
    ensures LeadTotal(KeyLinesOf(ms, depth, shape, widest))
         == LeadFor(ms[0].key, depth, shape, widest) + LeadTotal(InnerKeyLines(ms[0], depth, shape))
          + LeadTotal(KeyLinesOf(ms[1..], depth, shape, widest))
  {
    var own, inner := OwnKeyLine(ms[0].key, depth, shape, widest), InnerKeyLines(ms[0], depth, shape);
    var rest := KeyLinesOf(ms[1..], depth, shape, widest);
    assert KeyLinesOf(ms, depth, shape, widest) == own + inner + rest;
    LeadTotalAppend(own + inner, rest);
    LeadTotalAppend(own, inner);
    assert LeadTotal(own) == LeadFor(ms[0].key, depth, shape, widest);
  }

  function InnerPadding(m: Member, shape: MapShape): nat {
    if m.value.Obj? then PaddingTotal(m.value.members, shape, Widest(m.value.members, shape)) else 0
  }

  /** With an indent, aligning adds exactly the padding to the leads, key by key. */
  lemma {:induction false} LeadsSplit(ms: seq<Member>, depth: nat, shape: MapShape, widest: nat)
    ensures LeadTotal(KeyLinesOf(ms, depth, shape, widest))
         == LeadTotal(KeyLinesOf(ms, depth, Plain(shape), 0)) + PaddingTotal(ms, shape, widest)
    decreases ms, 0
  {
    if ms != [] {
      LeadTotalStep(ms, depth, shape, widest);
      LeadTotalStep(ms, depth, Plain(shape), 0);
      InnerLeadsSplit(ms[0], depth, shape);
      LeadsSplit(ms[1..], depth, shape, widest);
      assert PaddingTotal(ms, shape, widest)
          == Padding(ms[0].key, widest) + InnerPadding(ms[0], shape) + PaddingTotal(ms[1..], shape, widest);
    }
  }

  lemma {:induction false} InnerLeadsSplit(m: Member, depth: nat, shape: MapShape)
    ensures LeadTotal(InnerKeyLines(m, depth, shape))
         == LeadTotal(InnerKeyLines(m, depth, Plain(shape))) + InnerPadding(m, shape)
    decreases m, 0
  {
    if m.value.Obj? {
      var inner := m.value.members;
      LeadsSplit(inner, depth + 1, shape, Widest(inner, shape));
    }
  }

  // ---- rendering without padding

  lemma {:induction false} PaddingParts(ms: seq<Member>, shape: MapShape, widest: nat)
    requires ms != [] && PaddingTotal(ms, shape, widest) == 0
    ensures Padding(ms[0].key, widest) == 0
    ensures ms[0].value.Obj? ==> PaddingTotal(ms[0].value.members, shape, Widest(ms[0].value.members, shape)) == 0
    ensures PaddingTotal(ms[1..], shape, widest) == 0
  {
  }

  /** An entry is written from its label, its closing indent and its inner blocks. */
  lemma {:induction false} SameBlock(
      m: Member, depth: nat, shape: MapShape, widest: nat, other: MapShape, otherWidest: nat)
    requires Printable(m.value)
    requires Label(m.key, depth, shape, widest) == Label(m.key, depth, other, otherWidest)
    requires Base(shape, depth) == Base(other, depth)
    requires m.value.Obj? ==>
      ObjectBlocks(m.value.members, depth + 1, shape) == ObjectBlocks(m.value.members, depth + 1, other)
    ensures Block(m, depth, shape, widest) == Block(m, depth, other, otherWidest)
  {
  }

  lemma {:induction false} SameBlocks(
      ms: seq<Member>, depth: nat, shape: MapShape, widest: nat, other: MapShape, otherWidest: nat)
    requires ms != [] && PrintableAll(ms)
    requires Block(ms[0], depth, shape, widest) == Block(ms[0], depth, other, otherWidest)
    requires Blocks(ms[1..], depth, shape, widest) == Blocks(ms[1..], depth, other, otherWidest)
    ensures Blocks(ms, depth, shape, widest) == Blocks(ms, depth, other, otherWidest)
  {
  }

  /** An aligned object without any padding is written as an unaligned one. */
  lemma {:induction false} BlocksWithoutPadding(ms: seq<Member>, depth: nat, shape: MapShape, widest: nat)
    requires PrintableAll(ms) && PaddingTotal(ms, shape, widest) == 0
    ensures Blocks(ms, depth, shape, widest) == Blocks(ms, depth, Plain(shape), 0)
    decreases ms, 0
  {
    if ms != [] {
      PaddingParts(ms, shape, widest);
      if ms[0].value.Obj? {
        var inner := ms[0].value.members;
        BlocksWithoutPadding(inner, depth + 1, shape, Widest(inner, shape));
      }
      SameBlock(ms[0], depth, shape, widest, Plain(shape), 0);
      BlocksWithoutPadding(ms[1..], depth, shape, widest);
      SameBlocks(ms, depth, shape, widest, Plain(shape), 0);
    }
  }

  lemma {:induction false} SerialiseWithoutPadding(ms: seq<Member>, shape: MapShape)
    requires PrintableAll(ms) && PaddingTotal(ms, shape, Widest(ms, shape)) == 0
    ensures Serialise(ms, shape) == Serialise(ms, Plain(shape))
  {
    BlocksWithoutPadding(ms, 1, shape, Widest(ms, shape));
  }

  /** Only the indent and the alignment of a shape are written. */
  lemma {:induction false} BlocksOfShape(ms: seq<Member>, depth: nat, shape: MapShape, other: MapShape, widest: nat)
    requires PrintableAll(ms) && IndentOf(shape) == IndentOf(other) && shape.align == other.align
    ensures Blocks(ms, depth, shape, widest) == Blocks(ms, depth, other, widest)
    decreases ms, 0
  {
    if ms != [] {
      if ms[0].value.Obj? {
        var inner := ms[0].value.members;
        BlocksOfShape(inner, depth + 1, shape, other, Widest(inner, shape));
      }
      SameBlock(ms[0], depth, shape, widest, other, widest);
      BlocksOfShape(ms[1..], depth, shape, other, widest);
      SameBlocks(ms, depth, shape, widest, other, widest);
    }
  }

  lemma {:induction false} SerialiseOfShape(ms: seq<Member>, shape: MapShape, other: MapShape)
    requires PrintableAll(ms) && IndentOf(shape) == IndentOf(other) && shape.align == other.align
    ensures Serialise(ms, shape) == Serialise(ms, other)
  {
    BlocksOfShape(ms, 1, shape, other, Widest(ms, shape));
  }

  // ---- what detection finds

  lemma {:induction false} MinimumIs(values: seq<nat>, m: nat)
    requires m in values && forall v :: v in values ==> m <= v
    ensures Minimum(values) == m
  {
  }

  /** With an indent of at least one, the indent is always read back. */
  lemma {:induction false} IndentRedetected(ms: seq<Member>, nested: bool, shape: MapShape)
    requires ms != [] && IndentOf(shape) >= 1
    ensures Redetected(ms, nested, shape).indent == Some(IndentOf(shape))
  {
    var widest := Widest(ms, shape);
    var keys := KeyLinesOf(ms, 1, shape, widest);
    var i := UnpaddedKey(ms, shape);
    KeyLinesShowOwn(ms, shape, widest, i);
    KeyLinesAtLeast(ms, 1, shape, widest);
    var leads := Map(LeadOf, keys);
    var k :| 0 <= k < |keys| && keys[k] == KeyLine(IndentOf(shape), Escape(ms[i].key));
    assert leads[k] == IndentOf(shape);
    forall v | v in leads ensures IndentOf(shape) <= v {
      var j :| 0 <= j < |leads| && leads[j] == v;
      assert keys[j].lead >= IndentOf(shape);
    }
    MinimumIs(leads, IndentOf(shape));
  }

  /** A flat object shows one key line per member. */
  lemma {:induction false} FlatKeyLines(ms: seq<Member>, shape: MapShape, widest: nat)
    requires IndentOf(shape) >= 1 && forall i :: 0 <= i < |ms| ==> !ms[i].value.Obj?
    ensures |KeyLinesOf(ms, 1, shape, widest)| == |ms|
    ensures forall i :: 0 <= i < |ms| ==>
      KeyLinesOf(ms, 1, shape, widest)[i] == KeyLine(IndentOf(shape) + Padding(ms[i].key, widest), Escape(ms[i].key))
  {
    if ms != [] {
      FlatKeyLines(ms[1..], shape, widest);
      var rest := KeyLinesOf(ms[1..], 1, shape, widest);
      assert KeyLinesOf(ms, 1, shape, widest)
          == [KeyLine(IndentOf(shape) + Padding(ms[0].key, widest), Escape(ms[0].key))] + rest;
    }
  }

  lemma {:induction false} FlatPadding(ms: seq<Member>, shape: MapShape, widest: nat)
    requires forall i :: 0 <= i < |ms| ==> !ms[i].value.Obj?
    ensures PaddingTotal(ms, shape, widest) == 0 <==> forall i :: 0 <= i < |ms| ==> Padding(ms[i].key, widest) == 0
  {
    if ms != [] {
      FlatPadding(ms[1..], shape, widest);
      assert forall i :: 0 <= i < |ms[1..]| ==> ms[1..][i] == ms[i + 1];
      assert (forall i :: 0 <= i < |ms| ==> Padding(ms[i].key, widest) == 0) <==>
        Padding(ms[0].key, widest) == 0
          && (forall i :: 0 <= i < |ms[1..]| ==> Padding(ms[1..][i].key, widest) == 0) by {
        if Padding(ms[0].key, widest) == 0
            && (forall i :: 0 <= i < |ms[1..]| ==> Padding(ms[1..][i].key, widest) == 0) {
          forall i | 0 <= i < |ms| ensures Padding(ms[i].key, widest) == 0 {
            if i > 0 { assert ms[i] == ms[1..][i - 1]; }
          }
        }
      }
    }
  }

  lemma {:induction false} EscapeGrows(s: string)
    ensures Length(Escape(s)) >= Length(s)
  {
    if s != "" {
      EscapeGrows(s[1..]);
      LengthAppend(EscapeChar(s[0]), Escape(s[1..]));
      var e := EscapeChar(s[0]);
      assert Length(e) == Width(e[0]) + Length(e[1..]);
    }
  }

  /** Every value moved by the same amount. */
  ghost predicate MovedBy(moved: seq<nat>, values: seq<nat>, d: nat) {
    |moved| == |values| && forall i :: 0 <= i < |moved| ==> moved[i] == values[i] + d
  }

  lemma {:induction false} OccurrencesMoved(moved: seq<nat>, values: seq<nat>, d: nat, v: nat)
    requires MovedBy(moved, values, d)
    ensures Occurrences(moved, v + d) == Occurrences(values, v)
  {
    if values != [] {
      OccurrencesMoved(moved[1..], values[1..], d, v);
    }
  }

  /** Moving every value by the same amount leaves the count of the most frequent one alone. */
  lemma {:induction false} DominantMoved(moved: seq<nat>, values: seq<nat>, d: nat)
    requires values != [] && MovedBy(moved, values, d)
    ensures Dominant(moved) == Dominant(values)
  {
    var i := DominantIsReached(values, values);
    var j := DominantIsReached(moved, moved);
    OccurrencesMoved(moved, values, d, values[i]);
    OccurrencesMoved(moved, values, d, values[j]);
    DominantBounds(values, values, j);
    DominantBounds(moved, moved, i);
  }

  lemma {:induction false} AlignedEnd(m: Member, shape: MapShape, widest: nat)
    requires Length(m.key) <= widest
    ensures EndOf(KeyLine(IndentOf(shape) + Padding(m.key, widest), Escape(m.key)))
         == Excess(m) + (IndentOf(shape) + widest)
  {
    EscapeGrows(m.key);
  }

  lemma {:induction false} AlignedEndAt(ms: seq<Member>, shape: MapShape, widest: nat, keys: seq<KeyLine>, i: nat)
    requires i < |ms| == |keys| && Length(ms[i].key) <= widest
    requires keys[i] == KeyLine(IndentOf(shape) + Padding(ms[i].key, widest), Escape(ms[i].key))
    ensures Map(EndOf, keys)[i] == Map(Excess, ms)[i] + (IndentOf(shape) + widest)
  {
    AlignedEnd(ms[i], shape, widest);
  }

  /** In an aligned flat file the ends differ from one column only by how much each key grows. */
  lemma {:induction false} AlignedEnds(ms: seq<Member>, shape: MapShape)
    requires IndentOf(shape) >= 1 && shape.align
    requires forall i :: 0 <= i < |ms| ==> !ms[i].value.Obj?
    ensures MovedBy(Map(EndOf, KeyLinesOf(ms, 1, shape, Widest(ms, shape))), Map(Excess, ms),
        IndentOf(shape) + Widest(ms, shape))
  {
    var widest, keys := Widest(ms, shape), KeyLinesOf(ms, 1, shape, Widest(ms, shape));
    FlatKeyLines(ms, shape, widest);
    forall i | 0 <= i < |ms| ensures Map(EndOf, keys)[i] == Map(Excess, ms)[i] + (IndentOf(shape) + widest) {
      AlignedEndAt(ms, shape, widest, keys, i);
    }
  }

  lemma {:induction false} FlatLeadsEqual(ms: seq<Member>, shape: MapShape)
    requires ms != [] && IndentOf(shape) >= 1
    requires forall i :: 0 <= i < |ms| ==> !ms[i].value.Obj?
    ensures AllEqual(Map(LeadOf, KeyLinesOf(ms, 1, shape, Widest(ms, shape))))
         <==> PaddingTotal(ms, shape, Widest(ms, shape)) == 0
  {
    var widest := Widest(ms, shape);
    FlatKeyLines(ms, shape, widest);
    FlatPadding(ms, shape, widest);
    var keys := KeyLinesOf(ms, 1, shape, widest);
    var leads := Map(LeadOf, keys);
    var i := UnpaddedKey(ms, shape);
    forall j | 0 <= j < |ms| ensures leads[j] == IndentOf(shape) + Padding(ms[j].key, widest) {
      assert leads[j] == LeadOf(keys[j]);
    }
    AllEqualTo(leads, i);
  }

  lemma {:induction false} AllEqualTo(values: seq<nat>, i: nat)
    requires i < |values|
    ensures AllEqual(values) <==> forall j :: 0 <= j < |values| ==> values[j] == values[i]
  {
  }

  lemma {:induction false} AlignedDominant(ms: seq<Member>, shape: MapShape)
    requires ms != [] && IndentOf(shape) >= 1 && shape.align
    requires forall i :: 0 <= i < |ms| ==> !ms[i].value.Obj?
    ensures Dominant(Map(EndOf, KeyLinesOf(ms, 1, shape, Widest(ms, shape)))) == Dominant(Map(Excess, ms))
  {
    AlignedEnds(ms, shape);
    DominantMoved(Map(EndOf, KeyLinesOf(ms, 1, shape, Widest(ms, shape))), Map(Excess, ms),
      IndentOf(shape) + Widest(ms, shape));
  }

  /** Whether alignment is read back, for a flat file with an indent. */
  lemma {:induction false} AlignRedetected(ms: seq<Member>, shape: MapShape)
    requires ms != [] && IndentOf(shape) >= 1
    requires forall i :: 0 <= i < |ms| ==> !ms[i].value.Obj?
    ensures Redetected(ms, false, shape).align
        <==> PaddingTotal(ms, shape, Widest(ms, shape)) > 0 && EvenKeys(ms)
  {
    FlatLeadsEqual(ms, shape);
    FlatKeyLines(ms, shape, Widest(ms, shape));
    if PaddingTotal(ms, shape, Widest(ms, shape)) > 0 {
      UnalignedHasNoPadding(ms, shape);
      AlignedDominant(ms, shape);
    }
  }

  // ---- the theorem on documents

  /** Two files with different key lines are different texts. */
  lemma {:induction false} KeyLinesTellApart(ms: seq<Member>, shape: MapShape, other: MapShape)
    requires ms != [] && PrintableAll(ms)
    requires KeyLinesOf(ms, 1, shape, Widest(ms, shape)) != KeyLinesOf(ms, 1, other, Widest(ms, other))
    ensures Serialise(ms, shape) != Serialise(ms, other)
  {
    SerialisedKeyLines(ms, shape);
    SerialisedKeyLines(ms, other);
  }

  /** Without an indent the smallest lead that shows is at least one, or the default is assumed. */
  lemma {:induction false} IndentLost(ms: seq<Member>, nested: bool, shape: MapShape)
    requires ms != [] && PrintableAll(ms) && IndentOf(shape) == 0
    ensures Serialise(ms, Redetected(ms, nested, shape)) != Serialise(ms, shape)
  {
    var widest := Widest(ms, shape);
    var keys := KeyLinesOf(ms, 1, shape, widest);
    var again := Redetected(ms, nested, shape);
    var i := UnpaddedKey(ms, shape);
    KeyLinesMissOne(ms, 1, shape, widest, i);
    KeyLinesAtLeast(ms, 1, shape, widest);
    IndentAtLeastOne(keys, nested);
    KeyLinesCounted(ms, 1, again, Widest(ms, again));
    KeyLinesTellApart(ms, shape, again);
  }

  lemma {:induction false} IndentAtLeastOne(keys: seq<KeyLine>, nested: bool)
    requires LeadsFrom(keys, 1)
    ensures LayoutOf(keys, nested).indent >= 1
  {
    if keys != [] {
      var leads := Map(LeadOf, keys);
      var k :| 0 <= k < |leads| && leads[k] == Minimum(leads);
    }
  }

  /** Dropping an alignment that pads anything changes the text. */
  lemma {:induction false} PaddingLost(ms: seq<Member>, shape: MapShape, again: MapShape)
    requires ms != [] && PrintableAll(ms) && IndentOf(shape) >= 1
    requires PaddingTotal(ms, shape, Widest(ms, shape)) > 0
    requires IndentOf(again) == IndentOf(shape) && !again.align
    ensures Serialise(ms, again) != Serialise(ms, shape)
  {
    LeadsSplit(ms, 1, shape, Widest(ms, shape));
    SerialiseOfShape(ms, again, Plain(shape));
    KeyLinesTellApart(ms, shape, Plain(shape));
  }

  /**
   * Rendering again with the layout read out of the rendered text gives the
   * same characters if and only if the layout is one that survives.
   */
  lemma {:induction false} RerenderedIsSame(ms: seq<Member>, nested: bool, shape: MapShape)
    requires ms != [] && PrintableAll(ms)
    requires !nested ==> forall i :: 0 <= i < |ms| ==> !ms[i].value.Obj?
    ensures Serialise(ms, Redetected(ms, nested, shape)) == Serialise(ms, shape) <==> KeepsLayout(ms, nested, shape)
  {
    var again, padding := Redetected(ms, nested, shape), PaddingTotal(ms, shape, Widest(ms, shape));
    if IndentOf(shape) == 0 {
      IndentLost(ms, nested, shape);
    } else {
      IndentRedetected(ms, nested, shape);
      if !nested {
        AlignRedetected(ms, shape);
      }
      if padding == 0 {
        SerialiseWithoutPadding(ms, shape);
        SerialiseOfShape(ms, again, Plain(shape));
      } else if again.align {
        assert shape.align by { UnalignedHasNoPadding(ms, shape); }
        SerialiseOfShape(ms, again, shape);
      } else {
        PaddingLost(ms, shape, again);
      }
    }
  }

  lemma {:induction false} UnalignedHasNoPadding(ms: seq<Member>, shape: MapShape)
    ensures !shape.align ==> PaddingTotal(ms, shape, 0) == 0
    decreases ms, 0
  {
    if ms != [] {
      if ms[0].value.Obj? {
        UnalignedHasNoPadding(ms[0].value.members, shape);
      }
      UnalignedHasNoPadding(ms[1..], shape);
    }
  }
}
