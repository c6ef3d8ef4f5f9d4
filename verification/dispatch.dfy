/** The dispatch framework `one::run` emits for a list of normalized interrupts,
    as item records rather than printed text: the `Runtime` trait, the
    `__vector_N` entry points of `mod interrupts`, the trampolines of
    `mod vtable`, the fields of `struct Vtable`, the `vtable::<R>()`
    initializer and the forwarding methods of `RawRuntime`. */
module Dispatch {
  import opened Wrappers
  import opened Text
  import opened Numerals
  import opened Utils
  import opened Svd
  import opened Normalization

  /** `&self` or `&mut self`. */
  datatype Receiver = Shared | Exclusive

  /** The shape of a slot: whether it takes a `&CriticalSection`, and whether
      it returns `bool` (only `is_ready` does). */
  datatype Signature = Signature(takesCs: bool, returnsBool: bool)

  const Plain := Signature(false, false)
  const InCriticalSection := Signature(true, false)
  const Readiness := Signature(true, true)

  /** A method of the generated `Runtime` trait. Interrupt methods are `unsafe`,
      have an empty default body and carry the description as doc lines. */
  datatype TraitMethod = TraitMethod(
    name: string, receiver: Receiver, takesCs: bool, isUnsafe: bool, defaultNoop: bool, doc: seq<string>)

  /** A function of `mod interrupts`: exported as `exportName`, named `fnName`,
      calling the runtime's method `calls` with a fresh critical section. */
  datatype VectorEntry = VectorEntry(exportName: string, fnName: string, calls: string)

  /** A function of `mod vtable` that casts the data pointer back to `R` and
      calls `R`'s method `calls`. */
  datatype Trampoline = Trampoline(name: string, sig: Signature, calls: string)

  /** A function-pointer field of `struct Vtable`. */
  datatype Field = Field(name: string, sig: Signature)

  /** `field: vtable::target::<R>,` in the initializer `vtable::<R>()`. */
  datatype Entry = Entry(field: string, target: string)

  /** A method of `RawRuntime` that calls `(self.vtable.slot)(self.data, ..)`. */
  datatype HandleMethod = HandleMethod(name: string, sig: Signature, slot: string, allowDeadCode: bool)

  datatype Framework = Framework(
    runtimeTrait: seq<TraitMethod>,
    vectors: seq<VectorEntry>,
    trampolines: seq<Trampoline>,
    vtable: seq<Field>,
    initializer: seq<Entry>,
    handle: seq<HandleMethod>)

  /** The lifecycle methods of the trait, in declaration order. */
  const Lifecycle: seq<string> := ["init", "snapshot", "idle", "wake", "shutdown"]

  /** The fixed slots of the table: the lifecycle plus `is_ready`, which comes
      from the `Ready` supertrait. */
  const FixedSlots: seq<string> := Lifecycle + ["is_ready"]

  // ---------------------------------------------------------------------------
  // Name projections
  // ---------------------------------------------------------------------------

  function InterruptNames(ints: seq<Interrupt>): (names: seq<string>) {
    seq(|ints|, k requires 0 <= k < |ints| => ints[k].name)
  }

  function MethodNames(ms: seq<TraitMethod>): (names: seq<string>) {
    seq(|ms|, k requires 0 <= k < |ms| => ms[k].name)
  }

  function TrampolineNames(ts: seq<Trampoline>): (names: seq<string>) {
    seq(|ts|, k requires 0 <= k < |ts| => ts[k].name)
  }

  function FieldNames(fs: seq<Field>): (names: seq<string>) {
    seq(|fs|, k requires 0 <= k < |fs| => fs[k].name)
  }

  function EntryFields(es: seq<Entry>): (names: seq<string>) {
    seq(|es|, k requires 0 <= k < |es| => es[k].field)
  }

  function HandleNames(hs: seq<HandleMethod>): (names: seq<string>) {
    seq(|hs|, k requires 0 <= k < |hs| => hs[k].name)
  }

  // ---------------------------------------------------------------------------
  // The emitted items, one function per block of the generator
  // ---------------------------------------------------------------------------

  /** The doc comment of an interrupt method: one line per line of the
      description followed by an empty `///` line, or nothing. */
  function DocLines(description: Option<string>): (doc: seq<string>) {
    match description
    case None => []
    case Some(d) => Lines(d) + [""]
  }

  function InterruptMethod(i: Interrupt): (m: TraitMethod) {
    TraitMethod(i.name, Exclusive, true, true, true, DocLines(i.description))
  }

  /** `pub trait Runtime`. */
  function RuntimeTrait(ints: seq<Interrupt>): (ms: seq<TraitMethod>) {
    [ TraitMethod("init", Exclusive, true, false, false, []),
      TraitMethod("snapshot", Exclusive, true, false, false, []),
      TraitMethod("idle", Shared, false, false, false, []),
      TraitMethod("wake", Exclusive, false, false, false, []),
      TraitMethod("shutdown", Shared, false, false, false, []) ]
    + seq(|ints|, k requires 0 <= k < |ints| => InterruptMethod(ints[k]))
  }

  /** The symbol of the entry point for vector `value`. */
  function VectorSymbol(value: nat): (symbol: string) {
    "__vector_" + Decimal(value)
  }

  /** `mod interrupts`. */
  function Vectors(ints: seq<Interrupt>): (vs: seq<VectorEntry>) {
    seq(|ints|, k requires 0 <= k < |ints| =>
      VectorEntry(VectorSymbol(ints[k].value), VectorSymbol(ints[k].value), ints[k].name))
  }

  /** The `vtable_trampoline` closure. */
  function PlainTrampoline(name: string): (t: Trampoline) {
    Trampoline(name, Plain, name)
  }

  /** The `vtable_cs_trampoline` closure. */
  function CsTrampoline(name: string): (t: Trampoline) {
    Trampoline(name, InCriticalSection, name)
  }

  /** `mod vtable`. */
  function Trampolines(ints: seq<Interrupt>): (ts: seq<Trampoline>) {
    [ CsTrampoline("init"),
      CsTrampoline("snapshot"),
      PlainTrampoline("idle"),
      PlainTrampoline("wake"),
      PlainTrampoline("shutdown"),
      Trampoline("is_ready", Readiness, "is_ready") ]
    + seq(|ints|, k requires 0 <= k < |ints| => CsTrampoline(ints[k].name))
  }

  /** `struct Vtable`. */
  function VtableFields(ints: seq<Interrupt>): (fs: seq<Field>) {
    [ Field("init", InCriticalSection),
      Field("snapshot", InCriticalSection),
      Field("idle", Plain),
      Field("wake", Plain),
      Field("shutdown", Plain),
      Field("is_ready", Readiness) ]
    + seq(|ints|, k requires 0 <= k < |ints| => Field(ints[k].name, InCriticalSection))
  }

  /** The `vtable_entry` closure. */
  function VtableEntry(name: string): (e: Entry) {
    Entry(name, name)
  }

  /** `fn vtable<R: Runtime>() -> &'static Vtable`. */
  function Initializer(ints: seq<Interrupt>): (es: seq<Entry>) {
    [ VtableEntry("init"),
      VtableEntry("snapshot"),
      VtableEntry("idle"),
      VtableEntry("wake"),
      VtableEntry("shutdown"),
      VtableEntry("is_ready") ]
    + seq(|ints|, k requires 0 <= k < |ints| => VtableEntry(ints[k].name))
  }

  /** The `call_trampoline` closure; always marked `#[allow(dead_code)]`. */
  function PlainCall(name: string): (h: HandleMethod) {
    HandleMethod(name, Plain, name, true)
  }

  /** The `call_cs_trampoline` closure. */
  function CsCall(name: string, allowDeadCode: bool): (h: HandleMethod) {
    HandleMethod(name, InCriticalSection, name, allowDeadCode)
  }

  /** `impl RawRuntime`: the forwarding methods. */
  function HandleMethods(ints: seq<Interrupt>): (hs: seq<HandleMethod>) {
    [ CsCall("init", true),
      CsCall("snapshot", true),
      PlainCall("idle"),
      PlainCall("wake"),
      PlainCall("shutdown"),
      HandleMethod("is_ready", Readiness, "is_ready", true) ]
    + seq(|ints|, k requires 0 <= k < |ints| => CsCall(ints[k].name, false))
  }

  // ---------------------------------------------------------------------------
  // Slot by slot
  // ---------------------------------------------------------------------------

  /** The name of table slot `k`: a fixed slot, then the interrupts in order. */
  function SlotName(ints: seq<Interrupt>, k: nat): (name: string)
    requires k < 6 + |ints|
  {
    if k < 6 then FixedSlots[k] else ints[k - 6].name
  }

  /** The signature of table slot `k`. */
  function SlotSignature(k: nat): (sig: Signature) {
    if k == 5 then Readiness else if 2 <= k <= 4 then Plain else InCriticalSection
  }

  lemma TrampolinesBySlot(ints: seq<Interrupt>)
    ensures |Trampolines(ints)| == 6 + |ints|
    ensures forall k :: 0 <= k < 6 + |ints| ==>
              Trampolines(ints)[k] == Trampoline(SlotName(ints, k), SlotSignature(k), SlotName(ints, k))
  {
  }

  lemma FieldsBySlot(ints: seq<Interrupt>)
    ensures |VtableFields(ints)| == 6 + |ints|
    ensures forall k :: 0 <= k < 6 + |ints| ==>
              VtableFields(ints)[k] == Field(SlotName(ints, k), SlotSignature(k))
  {
  }

  lemma InitializerBySlot(ints: seq<Interrupt>)
    ensures |Initializer(ints)| == 6 + |ints|
    ensures forall k :: 0 <= k < 6 + |ints| ==>
              Initializer(ints)[k] == Entry(SlotName(ints, k), SlotName(ints, k))
  {
  }

  lemma HandleBySlot(ints: seq<Interrupt>)
    ensures |HandleMethods(ints)| == 6 + |ints|
    ensures forall k :: 0 <= k < 6 + |ints| ==>
              HandleMethods(ints)[k] == HandleMethod(SlotName(ints, k), SlotSignature(k), SlotName(ints, k), k < 6)
  {
  }

  lemma TraitByMethod(ints: seq<Interrupt>)
    ensures |RuntimeTrait(ints)| == 5 + |ints|
    ensures forall k :: 0 <= k < 5 ==> RuntimeTrait(ints)[k].name == Lifecycle[k]
    ensures forall k :: 0 <= k < 5 ==>
              && RuntimeTrait(ints)[k].takesCs == SlotSignature(k).takesCs
              && !RuntimeTrait(ints)[k].defaultNoop && !RuntimeTrait(ints)[k].isUnsafe
    ensures forall j :: 0 <= j < |ints| ==> RuntimeTrait(ints)[5 + j] == InterruptMethod(ints[j])
  {
  }

  // ---------------------------------------------------------------------------
  // What the items promise each other
  // ---------------------------------------------------------------------------

  /** The table, its trampolines, its initializer and the handle list the same
      names in the same order; every initializer entry and handle method
      points at the trampoline or field of its own name, and each trampoline
      calls the runtime method of its own name. */
  predicate NamesAgree(f: Framework) {
    && |f.vtable| == |f.trampolines| == |f.initializer| == |f.handle|
    && TrampolineNames(f.trampolines) == FieldNames(f.vtable)
    && EntryFields(f.initializer) == FieldNames(f.vtable)
    && HandleNames(f.handle) == FieldNames(f.vtable)
    && (forall k :: 0 <= k < |f.vtable| ==>
          && f.trampolines[k].calls == f.trampolines[k].name
          && f.initializer[k].target == f.trampolines[k].name
          && f.handle[k].slot == f.vtable[k].name)
  }

  /** Trampolines, fields and handle methods have the same signature slot by slot. */
  predicate SignaturesAgree(f: Framework)
    requires |f.vtable| == |f.trampolines| == |f.handle|
  {
    forall k :: 0 <= k < |f.vtable| ==> f.trampolines[k].sig == f.vtable[k].sig && f.handle[k].sig == f.vtable[k].sig
  }

  /** After the five lifecycle methods, the trait has one method per interrupt
      slot, named like the slot's trampoline and taking a critical section
      exactly when it does. */
  predicate TraitMatchesTable(f: Framework)
    requires |f.vtable| == |f.trampolines|
  {
    && |f.runtimeTrait| + 1 == |f.vtable|
    && |f.runtimeTrait| >= 5
    && MethodNames(f.runtimeTrait)[..5] == Lifecycle
    && (forall k :: 5 <= k < |f.runtimeTrait| ==>
          && f.runtimeTrait[k].name == f.trampolines[k + 1].calls
          && f.runtimeTrait[k].takesCs == f.trampolines[k + 1].sig.takesCs)
  }

  /** Each vector entry calls, in order, an interrupt method of the trait that
      takes a critical section. */
  predicate VectorsCallTrait(f: Framework) {
    && |f.vectors| + 5 == |f.runtimeTrait|
    && (forall j :: 0 <= j < |f.vectors| ==>
          && f.vectors[j].calls == f.runtimeTrait[5 + j].name
          && f.runtimeTrait[5 + j].takesCs)
  }

  /** The agreements that make the generated code fit together. */
  predicate Coherent(f: Framework) {
    && NamesAgree(f)
    && SignaturesAgree(f)
    && TraitMatchesTable(f)
    && VectorsCallTrait(f)
  }

  /** All items, block by block, as `one::run` emits them. */
  function Assemble(ints: seq<Interrupt>): (f: Framework) {
    Framework(RuntimeTrait(ints), Vectors(ints), Trampolines(ints), VtableFields(ints), Initializer(ints), HandleMethods(ints))
  }

  lemma AssembleNames(ints: seq<Interrupt>)
    ensures NamesAgree(Assemble(ints))
    ensures FieldNames(Assemble(ints).vtable) == FixedSlots + InterruptNames(ints)
  {
    var f := Assemble(ints);
    TrampolinesBySlot(ints);
    FieldsBySlot(ints);
    InitializerBySlot(ints);
    HandleBySlot(ints);
    assert FieldNames(f.vtable) == FixedSlots + InterruptNames(ints);
    assert TrampolineNames(f.trampolines) == FieldNames(f.vtable);
    assert EntryFields(f.initializer) == FieldNames(f.vtable);
    assert HandleNames(f.handle) == FieldNames(f.vtable);
  }

  lemma AssembleSignatures(ints: seq<Interrupt>)
    ensures |Assemble(ints).vtable| == |Assemble(ints).trampolines| == |Assemble(ints).handle| == 6 + |ints|
    ensures SignaturesAgree(Assemble(ints))
    ensures forall k :: 0 <= k < 6 + |ints| ==>
              && Assemble(ints).vtable[k].sig == SlotSignature(k)
              && (Assemble(ints).handle[k].allowDeadCode <==> k < 6)
  {
    TrampolinesBySlot(ints);
    FieldsBySlot(ints);
    HandleBySlot(ints);
  }

  lemma AssembleTraitNames(ints: seq<Interrupt>)
    ensures MethodNames(Assemble(ints).runtimeTrait) == Lifecycle + InterruptNames(ints)
    ensures |Assemble(ints).runtimeTrait| >= 5
    ensures MethodNames(Assemble(ints).runtimeTrait)[..5] == Lifecycle
  {
    var names := MethodNames(Assemble(ints).runtimeTrait);
    TraitByMethod(ints);
    assert names == Lifecycle + InterruptNames(ints);
    assert names[..5] == Lifecycle;
  }

  lemma AssembleTrait(ints: seq<Interrupt>)
    ensures |Assemble(ints).vtable| == |Assemble(ints).trampolines|
    ensures TraitMatchesTable(Assemble(ints))
    ensures MethodNames(Assemble(ints).runtimeTrait) == Lifecycle + InterruptNames(ints)
    ensures forall k :: 0 <= k < |Assemble(ints).runtimeTrait| ==>
              var m := Assemble(ints).runtimeTrait[k];
              (m.defaultNoop <==> k >= 5) && (m.isUnsafe <==> k >= 5)
  {
    TrampolinesBySlot(ints);
    FieldsBySlot(ints);
    TraitByMethod(ints);
    AssembleTraitNames(ints);
  }

  lemma AssembleVectors(ints: seq<Interrupt>)
    ensures VectorsCallTrait(Assemble(ints))
    ensures |Assemble(ints).vectors| == |ints|
    ensures forall j :: 0 <= j < |ints| ==>
              && Assemble(ints).vectors[j].exportName == VectorSymbol(ints[j].value)
              && Assemble(ints).vectors[j].fnName == Assemble(ints).vectors[j].exportName
              && Assemble(ints).vectors[j].calls == ints[j].name
  {
    TraitByMethod(ints);
  }

  /** The generator's output for the normalized list `ints`: coherent; the
      table has the six fixed slots then one slot per interrupt in input order
      (so 6 + n slots); only `idle`, `wake` and `shutdown` run outside a
      critical section and only `is_ready` returns a value; the trait has the
      five lifecycle methods then one unsafe, no-op-by-default method per
      interrupt; the handle's interrupt methods are the only ones not marked
      `allow(dead_code)`; entry point j is exported as `__vector_{value}`
      of interrupt j and calls that interrupt's method; and that method's doc
      lines are the lines of the interrupt's description. */
  function Generate(ints: seq<Interrupt>): (f: Framework)
    ensures Coherent(f)
    ensures |f.vtable| == 6 + |ints|
    ensures FieldNames(f.vtable) == FixedSlots + InterruptNames(ints)
    ensures MethodNames(f.runtimeTrait) == Lifecycle + InterruptNames(ints)
    ensures forall k :: 0 <= k < |f.vtable| ==>
              (f.vtable[k].sig.takesCs <==> !(2 <= k <= 4)) && (f.vtable[k].sig.returnsBool <==> k == 5)
    ensures forall k :: 0 <= k < |f.runtimeTrait| ==>
              (f.runtimeTrait[k].defaultNoop <==> k >= 5) && (f.runtimeTrait[k].isUnsafe <==> k >= 5)
    ensures forall k :: 0 <= k < |f.handle| ==> (f.handle[k].allowDeadCode <==> k < 6)
    ensures |f.vectors| == |ints|
    ensures forall j :: 0 <= j < |ints| ==>
              && f.vtable[6 + j].name == ints[j].name
              && f.vectors[j].exportName == VectorSymbol(ints[j].value)
              && f.vectors[j].fnName == f.vectors[j].exportName
              && f.vectors[j].calls == ints[j].name
    ensures forall j :: 0 <= j < |ints| ==> f.runtimeTrait[5 + j].doc == DocLines(ints[j].description)
  {
    FieldsBySlot(ints);
    TraitByMethod(ints);
    AssembleNames(ints);
    AssembleSignatures(ints);
    AssembleTrait(ints);
    AssembleVectors(ints);
    Assemble(ints)
  }

  /** Entry points get distinct symbols exactly when the interrupts have
      distinct vector positions. */
  lemma VectorSymbolsDistinct(ints: seq<Interrupt>)
    ensures (forall j, l :: 0 <= j < l < |ints| ==> ints[j].value != ints[l].value)
        <==> (forall j, l :: 0 <= j < l < |ints| ==> Vectors(ints)[j].exportName != Vectors(ints)[l].exportName)
  {
    var vs := Vectors(ints);
    forall j, l | 0 <= j < l < |ints| && vs[j].exportName == vs[l].exportName
      ensures ints[j].value == ints[l].value
    {
      assert Decimal(ints[j].value) == vs[j].exportName[9..];
      assert Decimal(ints[l].value) == vs[l].exportName[9..];
      DecimalInjective(ints[j].value, ints[l].value);
    }
  }

  /** The doc lines of an interrupt method with a trimmed, carriage-return free
      description read back as that description, followed by one empty line;
      each of them is a single `///` line of the output. */
  lemma DocLinesReadBack(i: Interrupt)
    requires i.description.Some? && IsTight(i.description.value)
    requires NoCarriageReturn(i.description.value)
    ensures var doc := InterruptMethod(i).doc;
      |doc| >= 1 && doc[|doc| - 1] == "" && JoinLines(doc[..|doc| - 1]) == i.description.value
    ensures var doc := InterruptMethod(i).doc;
      forall j, k :: 0 <= j < |doc| && 0 <= k < |doc[j]| ==> doc[j][k] != '\n'
  {
    var d := i.description.value;
    var doc := InterruptMethod(i).doc;
    assert IsWhitespace('\n');
    JoinLinesOfLines(d);
    assert doc[..|doc| - 1] == Lines(d);
  }

  // ---------------------------------------------------------------------------
  // The whole run
  // ---------------------------------------------------------------------------

  /** `one::run` without reading the file and without printing: the framework
      for the normalized interrupts of the device. Slot 6 + k belongs to the
      k-th non-reserved line of the device, under its lowercased name, entry
      point k is that line's vector, and trait method 5 + k carries the lines
      of its trimmed description as doc lines. */
  function Run(ps: seq<Peripheral>): (f: Framework)
    ensures Coherent(f)
    ensures var flat, idx := Flatten(ps), KeptPositions(Flatten(ps));
      && |f.vtable| == 6 + |idx|
      && |f.vectors| == |idx|
      && (forall k :: 0 <= k < |idx| ==>
            && idx[k] < |flat|
            && !IsReserved(flat[idx[k]])
            && f.vtable[6 + k].name == LowerStr(flat[idx[k]].name)
            && f.vectors[k].exportName == VectorSymbol(flat[idx[k]].value)
            && f.runtimeTrait[5 + k].doc == DocLines(flat[idx[k]].description.Map(TrimInPlace)))
  {
    RunFollowsDevice(ps);
    Generate(Normalize(ps))
  }

  lemma RunFollowsDevice(ps: seq<Peripheral>)
    ensures var f, flat, idx := Generate(Normalize(ps)), Flatten(ps), KeptPositions(Flatten(ps));
      && |f.vtable| == 6 + |idx|
      && |f.vectors| == |idx|
      && (forall k :: 0 <= k < |idx| ==>
            && f.vtable[6 + k].name == LowerStr(flat[idx[k]].name)
            && f.vectors[k].exportName == VectorSymbol(flat[idx[k]].value)
            && f.runtimeTrait[5 + k].doc == DocLines(flat[idx[k]].description.Map(TrimInPlace)))
  {
    var ints := Normalize(ps);
    NormalizeSpec(ps);
    var f := Generate(ints);
    assert |ints| == |KeptPositions(Flatten(ps))|;
  }

  /** A single interrupt yields seven table slots and one entry point. */
  lemma GenerateOne(i: Interrupt)
    ensures FieldNames(Generate([i]).vtable) == FixedSlots + [i.name]
    ensures Generate([i]).vectors == [VectorEntry(VectorSymbol(i.value), VectorSymbol(i.value), i.name)]
  {
    assert InterruptNames([i]) == [i.name];
  }

  lemma RunOfScenario(r0: Interrupt, rx: Interrupt, r1: Interrupt, uart: Interrupt)
    requires r0 == Interrupt("RESERVED0", None, 0)
    requires rx == Interrupt("UART_RX", None, 3)
    requires r1 == Interrupt("Reserved1", None, 1)
    requires uart == Interrupt("uart_rx", None, 3)
    ensures Run([Peripheral("CPU", [r0, rx, r1])]) == Generate([uart])
  {
    ReservedScenario(r0, rx, r1);
  }

  /** The framework generated for the single line `uart_rx` at 3. */
  lemma UartFramework(uart: Interrupt)
    requires uart == Interrupt("uart_rx", None, 3)
    ensures FieldNames(Generate([uart]).vtable)
         == ["init", "snapshot", "idle", "wake", "shutdown", "is_ready", "uart_rx"]
    ensures Generate([uart]).vectors == [VectorEntry("__vector_3", "__vector_3", "uart_rx")]
  {
    GenerateOne(uart);
    assert VectorSymbol(3) == "__vector_3";
  }

  /** The reserved-line scenario end to end: seven table slots, the last one
      `uart_rx`, and a single entry point, `__vector_3`.
      The literals are passed as parameters pinned by `requires`: the solver
      then treats them as names and spells out their characters only where a
      step needs them, which keeps these proofs small. */
  lemma RunScenario(r0: Interrupt, rx: Interrupt, r1: Interrupt)
    requires r0 == Interrupt("RESERVED0", None, 0)
    requires rx == Interrupt("UART_RX", None, 3)
    requires r1 == Interrupt("Reserved1", None, 1)
    ensures FieldNames(Run([Peripheral("CPU", [r0, rx, r1])]).vtable)
         == ["init", "snapshot", "idle", "wake", "shutdown", "is_ready", "uart_rx"]
    ensures Run([Peripheral("CPU", [r0, rx, r1])]).vectors == [VectorEntry("__vector_3", "__vector_3", "uart_rx")]
  {
    var uart := Interrupt("uart_rx", None, 3);
    RunOfScenario(r0, rx, r1, uart);
    UartFramework(uart);
  }
}
