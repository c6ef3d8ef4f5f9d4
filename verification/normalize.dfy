/** Interrupt normalization, the pipeline that opens `one::run`: flatten the
    peripherals' interrupt lists in order, drop every line whose name starts
    with "reserved" ignoring case, lowercase the name and trim the description. */
module Normalization {
  import opened Wrappers
  import opened Text
  import opened Utils
  import opened Svd

  const ReservedPrefix: string := "reserved"

  /** The filter of the pipeline tests the ORIGINAL name. */
  predicate IsReserved(i: Interrupt) {
    StartsWithCaseInsensitive(i.name, ReservedPrefix)
  }

  /** The map step: name lowercased, description trimmed as a whole, vector
      position untouched. */
  function NormalizeInterrupt(i: Interrupt): (r: Interrupt)
    ensures r.value == i.value
    ensures |r.name| == |i.name| && Utf8Len(r.name) == Utf8Len(i.name)
    ensures forall k :: 0 <= k < |r.name| ==> !IsAsciiUpper(r.name[k])
    ensures IsReserved(r) <==> IsReserved(i)
    ensures r.description.Some? <==> i.description.Some?
    ensures r.description.Some? ==> IsTight(r.description.value)
  {
    LowerStrProperties(i.name);
    StartsWithOfLowered(i.name, ReservedPrefix);
    i.(name := LowerStr(i.name), description := i.description.Map(TrimInPlace))
  }

  /** Normalizing an already normalized interrupt changes nothing. */
  lemma NormalizeInterruptIdempotent(i: Interrupt)
    ensures NormalizeInterrupt(NormalizeInterrupt(i)) == NormalizeInterrupt(i)
  {
    LowerStrProperties(i.name);
    if i.description.Some? {
      TrimInPlaceIdempotent(i.description.value);
    }
  }

  /** `filter(..).cloned().map(..)` over one interrupt list. */
  function KeepAndNormalize(lines: seq<Interrupt>): (out: seq<Interrupt>)
  {
    if |lines| == 0 then []
    else
      var last := lines[|lines| - 1];
      KeepAndNormalize(lines[..|lines| - 1]) + (if IsReserved(last) then [] else [NormalizeInterrupt(last)])
  }

  /** `peripherals.iter().flat_map(..).collect()`: peripherals in order, each
      contributing its own filtered and normalized list. */
  function Normalize(ps: seq<Peripheral>): (out: seq<Interrupt>)
  {
    if |ps| == 0 then [] else Normalize(ps[..|ps| - 1]) + KeepAndNormalize(ps[|ps| - 1].interrupts)
  }

  // ---------------------------------------------------------------------------
  // Reference view: one flat list, and the positions that survive the filter
  // ---------------------------------------------------------------------------

  /** All interrupt lines of the device, peripheral by peripheral. */
  function Flatten(ps: seq<Peripheral>): (flat: seq<Interrupt>)
    ensures |ps| > 0 ==> flat == Flatten(ps[..|ps| - 1]) + ps[|ps| - 1].interrupts
  {
    if |ps| == 0 then [] else Flatten(ps[..|ps| - 1]) + ps[|ps| - 1].interrupts
  }

  /** The positions in `lines` of the lines that are not reserved, in increasing
      order: each such position once, and no other. */
  function KeptPositions(lines: seq<Interrupt>): (idx: seq<nat>)
    ensures forall k :: 0 <= k < |idx| ==> idx[k] < |lines| && !IsReserved(lines[idx[k]])
    ensures forall k, l :: 0 <= k < l < |idx| ==> idx[k] < idx[l]
    ensures forall j :: 0 <= j < |lines| && !IsReserved(lines[j]) ==> j in idx
  {
    if |lines| == 0 then []
    else
      var n := |lines| - 1;
      var front := KeptPositions(lines[..n]);
      assert forall k :: 0 <= k < |front| ==> lines[..n][front[k]] == lines[front[k]];
      front + (if IsReserved(lines[n]) then [] else [n])
  }

  lemma {:induction false} KeepAndNormalizeConcat(a: seq<Interrupt>, b: seq<Interrupt>)
    ensures KeepAndNormalize(a + b) == KeepAndNormalize(a) + KeepAndNormalize(b)
    decreases |b|
  {
    if |b| == 0 {
      assert a + b == a;
    } else {
      var b' := b[..|b| - 1];
      assert (a + b)[..|a + b| - 1] == a + b';
      assert (a + b)[|a + b| - 1] == b[|b| - 1];
      KeepAndNormalizeConcat(a, b');
    }
  }

  /** Order preservation: the nested per-peripheral pipeline is the single
      filter-and-normalize pass over the flattened list. */
  lemma {:induction false} NormalizeIsFlatPass(ps: seq<Peripheral>)
    ensures Normalize(ps) == KeepAndNormalize(Flatten(ps))
  {
    if |ps| > 0 {
      NormalizeIsFlatPass(ps[..|ps| - 1]);
      KeepAndNormalizeConcat(Flatten(ps[..|ps| - 1]), ps[|ps| - 1].interrupts);
    }
  }

  /** The k-th output is the normalized form of the k-th kept input line. */
  lemma {:induction false} KeepAndNormalizeFollowsPositions(lines: seq<Interrupt>)
    ensures |KeepAndNormalize(lines)| == |KeptPositions(lines)|
    ensures forall k :: 0 <= k < |KeptPositions(lines)| ==>
              KeepAndNormalize(lines)[k] == NormalizeInterrupt(lines[KeptPositions(lines)[k]])
  {
    if |lines| > 0 {
      var n := |lines| - 1;
      KeepAndNormalizeFollowsPositions(lines[..n]);
      var front := KeptPositions(lines[..n]);
      assert forall k :: 0 <= k < |front| ==> lines[..n][front[k]] == lines[front[k]];
    }
  }

  /** The whole normalization contract: the output lists, in input order, the
      normalized form of every non-reserved line of the flattened device, each
      exactly once (positions strictly increase and cover every non-reserved
      line). Names are lowercased, vector positions kept, descriptions trimmed. */
  lemma NormalizeSpec(ps: seq<Peripheral>)
    ensures var flat, idx, out := Flatten(ps), KeptPositions(Flatten(ps)), Normalize(ps);
      && |out| == |idx|
      && (forall k :: 0 <= k < |out| ==> idx[k] < |flat| && !IsReserved(flat[idx[k]]))
      && (forall k, l :: 0 <= k < l < |idx| ==> idx[k] < idx[l])
      && (forall j :: 0 <= j < |flat| && !IsReserved(flat[j]) ==> j in idx)
      && (forall k :: 0 <= k < |out| ==>
            && out[k].name == LowerStr(flat[idx[k]].name)
            && out[k].value == flat[idx[k]].value
            && out[k].description == flat[idx[k]].description.Map(TrimInPlace))
  {
    NormalizeIsFlatPass(ps);
    KeepAndNormalizeFollowsPositions(Flatten(ps));
  }

  /** No output line is reserved, under its new name or its old one. */
  lemma NormalizeDropsReserved(ps: seq<Peripheral>)
    ensures forall i :: i in Normalize(ps) ==> !IsReserved(i)
  {
    NormalizeSpec(ps);
    var flat, idx, out := Flatten(ps), KeptPositions(Flatten(ps)), Normalize(ps);
    forall i | i in out
      ensures !IsReserved(i)
    {
      var k :| 0 <= k < |out| && out[k] == i;
      assert out[k] == NormalizeInterrupt(flat[idx[k]]);
    }
  }

  /** Appending one line to the input appends its normalized form, unless it is reserved. */
  lemma KeepAndNormalizeSnoc(lines: seq<Interrupt>, i: Interrupt)
    ensures KeepAndNormalize(lines + [i])
         == KeepAndNormalize(lines) + (if IsReserved(i) then [] else [NormalizeInterrupt(i)])
  {
    assert (lines + [i])[..|lines|] == lines;
  }

  /** One peripheral with two lines keeps both when neither is reserved. */
  lemma KeepsBoth(name: string, a: Interrupt, b: Interrupt)
    requires !IsReserved(a) && !IsReserved(b)
    ensures Normalize([Peripheral(name, [a, b])]) == [NormalizeInterrupt(a), NormalizeInterrupt(b)]
  {
    KeepAndNormalizeSnoc([], a);
    KeepAndNormalizeSnoc([a], b);
    assert [] + [a] == [a];
    assert [a] + [b] == [a, b];
    var p := Peripheral(name, [a, b]);
    assert [p][..0] == [];
  }

  /** Lines whose names differ only in case are both kept: nothing is merged.
      The device is a parameter pinned by `requires` for the reason given at
      `ReservedScenario`. */
  lemma NoDeduplication(device: seq<Peripheral>)
    requires device == [Peripheral("TC0", [Interrupt("Timer", None, 1), Interrupt("TIMER", None, 2)])]
    ensures Normalize(device) == [Interrupt("timer", None, 1), Interrupt("timer", None, 2)]
  {
    var timer1, timer2 := device[0].interrupts[0], device[0].interrupts[1];
    assert device == [Peripheral("TC0", [timer1, timer2])];
    assert LowerStr(timer1.name) == "timer";
    assert LowerStr(timer2.name) == "timer";
    assert !IsReserved(timer1) by {
      StartsWithMeansLoweredPrefix(timer1.name, ReservedPrefix);
      assert LowerStr(ReservedPrefix)[1] != LowerStr(timer1.name)[1];
    }
    assert !IsReserved(timer2) by {
      StartsWithMeansLoweredPrefix(timer2.name, ReservedPrefix);
      assert LowerStr(ReservedPrefix)[1] != LowerStr(timer2.name)[1];
    }
    KeepsBoth("TC0", timer1, timer2);
  }

  /** One peripheral whose first and last lines are reserved keeps only the middle line. */
  lemma KeepsOnlyMiddle(name: string, a: Interrupt, b: Interrupt, c: Interrupt)
    requires IsReserved(a) && !IsReserved(b) && IsReserved(c)
    ensures Normalize([Peripheral(name, [a, b, c])]) == [NormalizeInterrupt(b)]
  {
    KeepAndNormalizeSnoc([], a);
    KeepAndNormalizeSnoc([a], b);
    KeepAndNormalizeSnoc([a, b], c);
    assert [] + [a] == [a];
    assert [a] + [b] == [a, b];
    assert [a, b] + [c] == [a, b, c];
    var p := Peripheral(name, [a, b, c]);
    assert [p][..0] == [];
  }

  /** The reserved-line scenario: `RESERVED0` at 0, `UART_RX` at 3 and
      `Reserved1` at 1 normalize to the single line `uart_rx` at 3.
      The literals are passed as parameters pinned by `requires`: the solver
      then treats them as names and spells out their characters only where a
      step needs them, which keeps these proofs small. */
  lemma ReservedScenario(r0: Interrupt, rx: Interrupt, r1: Interrupt)
    requires r0 == Interrupt("RESERVED0", None, 0)
    requires rx == Interrupt("UART_RX", None, 3)
    requires r1 == Interrupt("Reserved1", None, 1)
    ensures Normalize([Peripheral("CPU", [r0, rx, r1])]) == [Interrupt("uart_rx", None, 3)]
  {
    ScenarioLinesClassified(r0, rx, r1);
    UartRxNormalized(rx);
    KeepsOnlyMiddle("CPU", r0, rx, r1);
  }

  lemma ScenarioLinesClassified(r0: Interrupt, rx: Interrupt, r1: Interrupt)
    requires r0.name == "RESERVED0" && rx.name == "UART_RX" && r1.name == "Reserved1"
    ensures IsReserved(r0) && !IsReserved(rx) && IsReserved(r1)
  {
    ReservedExamples(r0.name, r1.name, rx.name, ReservedPrefix);
  }

  lemma UartRxNormalized(rx: Interrupt)
    requires rx == Interrupt("UART_RX", None, 3)
    ensures NormalizeInterrupt(rx) == Interrupt("uart_rx", None, 3)
  {
    assert LowerStr(rx.name) == "uart_rx";
  }
}
