/** The memory map a C server app is generated from: access rights, write hooks and the validation of a config. */
module CodegenConfig {
  import opened AddressSpace

  datatype Access = Ro | Wo | Rw
  {
    predicate Readable() { Ro? || Rw? }
    predicate Writable() { Wo? || Rw? }
  }

  datatype Entry = Entry(address: u16, access: Access, onWrite: Option<string>)

  /** The entries of one data domain and the hook that serves those without their own. */
  datatype Section = Section(entries: seq<Entry>, onWrite: Option<string>)

  datatype Config = Config(version: nat, coils: Section, discreteInputs: Section, holding: Section, inputs: Section)

  ghost predicate Distinct(entries: seq<Entry>)
  {
    forall i, j :: 0 <= i < j < |entries| ==> entries[i].address != entries[j].address
  }

  ghost predicate NoneWritable(entries: seq<Entry>)
  {
    forall i :: 0 <= i < |entries| ==> entries[i].access == Ro
  }

  ghost predicate Accepted(c: Config)
  {
    && c.version == 1
    && Distinct(c.coils.entries) && Distinct(c.discreteInputs.entries)
    && Distinct(c.holding.entries) && Distinct(c.inputs.entries)
    && NoneWritable(c.discreteInputs.entries) && NoneWritable(c.inputs.entries)
  }

  /** `validate_entries_unique`. */
  method EntriesUnique(entries: seq<Entry>) returns (ok: bool)
    ensures ok <==> Distinct(entries)
  {
    var seen: set<int> := {};
    for i := 0 to |entries|
      invariant forall a :: a in seen <==> exists k :: 0 <= k < i && entries[k].address == a
      invariant Distinct(entries[..i])
    {
      if entries[i].address in seen { return false; }
      seen := seen + {entries[i].address};
      assert entries[..i + 1] == entries[..i] + [entries[i]];
    }
    assert entries[..|entries|] == entries;
    return true;
  }

  method EntriesReadOnly(entries: seq<Entry>) returns (ok: bool)
    ensures ok <==> NoneWritable(entries)
  {
    for i := 0 to |entries|
      invariant forall k :: 0 <= k < i ==> !entries[k].access.Writable()
    {
      if entries[i].access.Writable() { return false; }
    }
    return true;
  }

  /** `validate_config`: checks in order and gives up at the first failure. */
  method ValidateConfig(c: Config) returns (ok: bool)
    ensures ok <==> Accepted(c)
  {
    if c.version != 1 { return false; }
    ok := EntriesUnique(c.coils.entries);
    if !ok { return; }
    ok := EntriesUnique(c.discreteInputs.entries);
    if !ok { return; }
    ok := EntriesUnique(c.holding.entries);
    if !ok { return; }
    ok := EntriesUnique(c.inputs.entries);
    if !ok { return; }
    ok := EntriesReadOnly(c.discreteInputs.entries);
    if !ok { return; }
    ok := EntriesReadOnly(c.inputs.entries);
  }

  /** The addresses that exist in a section. */
  ghost function Keys(s: Section): set<int>
  {
    set e | e in s.entries :: e.address
  }

  /** The addresses that a Modbus write or an address-based set may change. */
  ghost predicate MayWrite(s: Section, a: int)
  {
    exists i :: 0 <= i < |s.entries| && s.entries[i].address == a && s.entries[i].access.Writable()
  }

  /** The address is declared `ro`. */
  ghost predicate ReadOnlyAt(s: Section, a: int)
  {
    exists i :: 0 <= i < |s.entries| && s.entries[i].address == a && s.entries[i].access.Ro?
  }

  /** In a config that passed validation, no address is both `ro` and writable. */
  lemma ReadOnlyIsNotWritable(s: Section, a: int)
    requires Distinct(s.entries) && ReadOnlyAt(s, a)
    ensures !MayWrite(s, a)
  {
  }

  /** `resolve_on_write`: the entry's own hook goes before the section's. */
  function ResolveOnWrite(e: Entry, onWrite: Option<string>): Option<string>
  {
    if e.onWrite.Some? then e.onWrite else onWrite
  }

  /** What a write of one address has to pass: nothing can serve it, nobody asks, or a C hook decides. */
  datatype Call = Missing | Silent | Invoke(symbol: string, address: u16, raw: bv16)

  /** The match arms of `dispatch_write_coil` and `dispatch_write_holding` from entry `from` on. */
  function DispatchFrom(s: Section, address: u16, raw: bv16, from: nat): (c: Call)
    requires from <= |s.entries|
    ensures c.Missing? <==>
            forall i :: from <= i < |s.entries| ==> s.entries[i].address != address || !s.entries[i].access.Writable()
    ensures c.Invoke? ==> c.address == address && c.raw == raw
    decreases |s.entries| - from
  {
    if from == |s.entries| then Missing
    else if s.entries[from].access.Writable() && s.entries[from].address == address then
      match ResolveOnWrite(s.entries[from], s.onWrite)
      case None => Silent
      case Some(symbol) => Invoke(symbol, address, raw)
    else DispatchFrom(s, address, raw, from + 1)
  }

  function Dispatch(s: Section, address: u16, raw: bv16): (c: Call)
    ensures c.Missing? <==> !MayWrite(s, address)
    ensures c.Invoke? ==> c.address == address && c.raw == raw
  {
    DispatchFrom(s, address, raw, 0)
  }

  /** Which hook an address has: its entry's own, else the section's, else none. */
  ghost predicate HasHook(s: Section, i: nat, symbol: Option<string>)
    requires i < |s.entries|
  {
    var own := s.entries[i].onWrite;
    && (own.Some? ==> symbol == own)
    && (own.None? ==> symbol == s.onWrite)
  }

  lemma {:induction false} DispatchFromEntry(s: Section, i: nat, raw: bv16, from: nat)
    requires Distinct(s.entries) && from <= i < |s.entries| && s.entries[i].access.Writable()
    ensures DispatchFrom(s, s.entries[i].address, raw, from) ==
            match ResolveOnWrite(s.entries[i], s.onWrite) {
              case None => Silent
              case Some(symbol) => Invoke(symbol, s.entries[i].address, raw)
            }
    decreases i - from
  {
    if from < i { DispatchFromEntry(s, i, raw, from + 1); }
  }

  /**
    A write to an entry declared `wo` or `rw` calls exactly one hook, with its address and value:
    the entry's own if it has one, else the section's; without either it calls none.
   */
  lemma DispatchCalls(s: Section, i: nat, raw: bv16, symbol: Option<string>)
    requires Distinct(s.entries) && i < |s.entries| && (s.entries[i].access == Wo || s.entries[i].access == Rw)
    requires HasHook(s, i, symbol)
    ensures symbol.None? ==> Dispatch(s, s.entries[i].address, raw) == Silent
    ensures symbol.Some? ==> Dispatch(s, s.entries[i].address, raw) == Invoke(symbol.value, s.entries[i].address, raw)
  {
    DispatchFromEntry(s, i, raw, 0);
  }

  /** An address that no entry declares `wo` or `rw` is refused without a hook. */
  lemma DispatchRefuses(s: Section, address: u16, raw: bv16)
    requires forall i :: 0 <= i < |s.entries| && s.entries[i].address == address ==> s.entries[i].access == Ro
    ensures Dispatch(s, address, raw) == Missing
  {
  }
}
