/** The assembler's symbol table: names bound to a kind and a value, with
    the default dictionary of PDP-8 mnemonics it starts from. */
module Symbols {
  import opened Wrappers

  datatype SymType = Pseudo | Mri | Si | Label

  datatype Symbol = Symbol(kind: SymType, val: int)

  /** The opcodes of the six memory reference instructions, AND to JMP:
      0, 0o1000, ..., 0o5000, the top three bits of the word. */
  predicate IsMriOpcode(v: int)
  {
    v == 0 || v == 0x200 || v == 0x400 || v == 0x600 || v == 0x800 || v == 0xA00
  }

  /** Every MRI binding in a table carries one of the six opcodes. The
      setters only ever bind SI and LABEL symbols, so they keep this. */
  ghost predicate MriWellFormed(entries: map<string, Symbol>)
  {
    forall n :: n in entries && entries[n].kind == Mri ==> IsMriOpcode(entries[n].val)
  }

  class SymbolTable {
    var entries: map<string, Symbol>

    constructor (initial: map<string, Symbol>)
      ensures entries == initial
    {
      entries := initial;
    }

    /** The binding of `name`, or None; a copy, so reading never changes
        the table. */
    function Get(name: string): (r: Option<Symbol>)
      reads this
      ensures r.Some? <==> name in entries
      ensures r.Some? ==> r.value == entries[name]
    {
      if name in entries then Some(entries[name]) else None
    }

    /** Bind `name` as an SI symbol, replacing any earlier binding. */
    method Set(name: string, val: int)
      modifies this
      ensures entries == old(entries)[name := Symbol(Si, val)]
      ensures Get(name) == Some(Symbol(Si, val))
      ensures forall n :: n != name ==> Get(n) == old(Get(n))
      ensures MriWellFormed(old(entries)) ==> MriWellFormed(entries)
    {
      entries := entries[name := Symbol(Si, val)];
    }

    /** Bind `name` as a LABEL symbol, replacing any earlier binding. */
    method Label(name: string, val: int)
      modifies this
      ensures entries == old(entries)[name := Symbol(SymType.Label, val)]
      ensures Get(name) == Some(Symbol(SymType.Label, val))
      ensures forall n :: n != name ==> Get(n) == old(Get(n))
      ensures MriWellFormed(old(entries)) ==> MriWellFormed(entries)
    {
      entries := entries[name := Symbol(SymType.Label, val)];
    }
  }

  // Values below are the octal constants of the dictionary written in
  // hexadecimal: 0o7000 = 0xE00, 0o6001 = 0xC01 and so on.

  /** The entries of the default dictionary, in the order they are listed: pseudo-ops, the MRIs, group 1 and group 2
      operate instructions and the IOTs of the interrupt system, the paper
      tape reader and punch and the teletype. */
  const DefaultEntries: seq<(string, Symbol)> :=
    PseudoEntries + MriEntries + Group1Entries + Group2Entries + IotEntries

  const PseudoEntries: seq<(string, Symbol)> := [
    ("EXPUNGE", Symbol(Pseudo, -1)),
    ("FIXTAB", Symbol(Pseudo, -1)),
    ("FIXMRI", Symbol(Pseudo, -1))
  ]

  const MriEntries: seq<(string, Symbol)> := [
    ("AND", Symbol(Mri, 0)),      // 0o0000
    ("TAD", Symbol(Mri, 0x200)),  // 0o1000
    ("ISZ", Symbol(Mri, 0x400)),  // 0o2000
    ("DCA", Symbol(Mri, 0x600)),  // 0o3000
    ("JMS", Symbol(Mri, 0x800)),  // 0o4000
    ("JMP", Symbol(Mri, 0xA00))   // 0o5000
  ]

  const Group1Entries: seq<(string, Symbol)> := [
    ("NOP", Symbol(Si, 0xE00)),   // 0o7000
    ("IAC", Symbol(Si, 0xE01)),   // 0o7001
    ("RAL", Symbol(Si, 0xE04)),   // 0o7004
    ("RTL", Symbol(Si, 0xE06)),   // 0o7006
    ("RAR", Symbol(Si, 0xE08)),   // 0o7010
    ("RTR", Symbol(Si, 0xE0A)),   // 0o7012
    ("CML", Symbol(Si, 0xE10)),   // 0o7020
    ("CMA", Symbol(Si, 0xE20)),   // 0o7040
    ("CIA", Symbol(Si, 0xE21)),   // 0o7041
    ("CLL", Symbol(Si, 0xE40)),   // 0o7100
    ("STL", Symbol(Si, 0xE50)),   // 0o7120
    ("CLA", Symbol(Si, 0xE80)),   // 0o7200
    ("GLK", Symbol(Si, 0xE84)),   // 0o7204
    ("STA", Symbol(Si, 0xEA0))    // 0o7240
  ]

  const Group2Entries: seq<(string, Symbol)> := [
    ("HLT", Symbol(Si, 0xF02)),   // 0o7402
    ("OSR", Symbol(Si, 0xF04)),   // 0o7404
    ("SKP", Symbol(Si, 0xF08)),   // 0o7410
    ("SNL", Symbol(Si, 0xF10)),   // 0o7420
    ("SZL", Symbol(Si, 0xF18)),   // 0o7430
    ("SZA", Symbol(Si, 0xF20)),   // 0o7440
    ("SNA", Symbol(Si, 0xF28)),   // 0o7450
    ("SMA", Symbol(Si, 0xF40)),   // 0o7500
    ("SPA", Symbol(Si, 0xF48)),   // 0o7510
    ("LAS", Symbol(Si, 0xF84))    // 0o7604
  ]

  const IotEntries: seq<(string, Symbol)> := [
    ("ION", Symbol(Si, 0xC01)),   // 0o6001
    ("IOF", Symbol(Si, 0xC02)),   // 0o6002

    ("RSF", Symbol(Si, 0xC09)),   // 0o6011
    ("RRB", Symbol(Si, 0xC0A)),   // 0o6012
    ("RFC", Symbol(Si, 0xC0C)),   // 0o6014

    ("PSF", Symbol(Si, 0xC11)),   // 0o6021
    ("PCF", Symbol(Si, 0xC12)),   // 0o6022
    ("PPC", Symbol(Si, 0xC14)),   // 0o6024
    ("PLS", Symbol(Si, 0xC16)),   // 0o6026

    ("KSF", Symbol(Si, 0xC19)),   // 0o6031
    ("KCC", Symbol(Si, 0xC1A)),   // 0o6032
    ("KRS", Symbol(Si, 0xC1C)),   // 0o6034
    ("KRB", Symbol(Si, 0xC1E)),   // 0o6036

    ("TSF", Symbol(Si, 0xC21)),   // 0o6041
    ("TCF", Symbol(Si, 0xC22)),   // 0o6042
    ("TPC", Symbol(Si, 0xC24)),   // 0o6044
    ("TLS", Symbol(Si, 0xC26))    // 0o6046
  ]

  /** The map a list of distinct (name, symbol) entries describes. */
  function EntriesMap(es: seq<(string, Symbol)>): (m: map<string, Symbol>)
    ensures m.Keys == set i | 0 <= i < |es| :: es[i].0
  {
    if es == [] then map[] else EntriesMap(es[..|es| - 1])[es[|es| - 1].0 := es[|es| - 1].1]
  }

  /** The default dictionary. */
  const DefaultSymbols: map<string, Symbol> := EntriesMap(DefaultEntries)

  /** Every binding of the map comes from an entry of the list. */
  lemma {:induction false} EntriesMapFrom(es: seq<(string, Symbol)>, n: string)
    requires n in EntriesMap(es)
    ensures exists i :: 0 <= i < |es| && es[i] == (n, EntriesMap(es)[n])
  {
    var last := |es| - 1;
    if es[last].0 != n {
      EntriesMapFrom(es[..last], n);
      var i :| 0 <= i < last && es[..last][i] == (n, EntriesMap(es[..last])[n]);
      assert es[i] == (n, EntriesMap(es)[n]);
    }
  }

  /** The six MRI mnemonics and their opcodes, in opcode order. */
  const MriNames: seq<string> := ["AND", "TAD", "ISZ", "DCA", "JMS", "JMP"]

  /** An entry's binding survives when no later entry rebinds its name. */
  lemma {:induction false} EntriesMapLookup(es: seq<(string, Symbol)>, i: nat)
    requires i < |es|
    requires forall j :: i < j < |es| ==> es[j].0 != es[i].0
    ensures es[i].0 in EntriesMap(es) && EntriesMap(es)[es[i].0] == es[i].1
  {
    var last := |es| - 1;
    if i < last {
      EntriesMapLookup(es[..last], i);
    }
  }

  lemma PseudoFacts(i: nat)
    requires i < |PseudoEntries|
    ensures PseudoEntries[i].1 == Symbol(Pseudo, -1)
  {
  }

  lemma MriFacts(i: nat)
    requires i < |MriEntries|
    ensures MriEntries[i] == (MriNames[i], Symbol(Mri, 0x200 * i))
  {
  }

  lemma Group1Facts(i: nat)
    requires i < |Group1Entries|
    ensures Group1Entries[i].1.kind == Si && 0xE00 <= Group1Entries[i].1.val <= 0xEA0
    ensures Group1Entries[i].0 !in MriNames
  {
  }

  lemma Group2Facts(i: nat)
    requires i < |Group2Entries|
    ensures Group2Entries[i].1.kind == Si && 0xF02 <= Group2Entries[i].1.val <= 0xF84
    ensures Group2Entries[i].0 !in MriNames
  {
  }

  lemma IotFacts(i: nat)
    requires i < |IotEntries|
    ensures IotEntries[i].1.kind == Si && 0xC01 <= IotEntries[i].1.val <= 0xC26
    ensures IotEntries[i].0 !in MriNames
  {
  }

  /** What each entry of the default list binds, by its position. */
  lemma EntryFacts(i: nat)
    requires i < |DefaultEntries|
    ensures var (n, sym) := DefaultEntries[i];
      && (i < 3 ==> sym == Symbol(Pseudo, -1))
      && (3 <= i < 9 ==> (n, sym) == (MriNames[i - 3], Symbol(Mri, 0x200 * (i - 3))))
      && (9 <= i ==> sym.kind == Si && 0xC01 <= sym.val <= 0xF84 && n !in MriNames)
  {
    var g1 := |PseudoEntries| + |MriEntries|;
    var g2 := g1 + |Group1Entries|;
    var g3 := g2 + |Group2Entries|;
    if i < 3 {
      PseudoFacts(i);
    } else if i < 9 {
      MriFacts(i - 3);
    } else if i < g2 {
      Group1Facts(i - g1);
    } else if i < g3 {
      Group2Facts(i - g2);
    } else {
      IotFacts(i - g3);
    }
  }

  /** Exactly six default symbols are memory reference instructions: AND,
      TAD, ISZ, DCA, JMS and JMP, with opcodes 0o1000 apart from 0. */
  lemma DefaultMris()
    ensures forall n :: n in DefaultSymbols && DefaultSymbols[n].kind == Mri <==> n in MriNames
    ensures forall k :: 0 <= k < |MriNames| ==> MriNames[k] in DefaultSymbols && DefaultSymbols[MriNames[k]] == Symbol(Mri, 0x200 * k)
  {
    forall n | n in DefaultSymbols && DefaultSymbols[n].kind == Mri
      ensures n in MriNames
    {
      EntriesMapFrom(DefaultEntries, n);
      var i :| 0 <= i < |DefaultEntries| && DefaultEntries[i] == (n, DefaultSymbols[n]);
      EntryFacts(i);
    }
    forall k | 0 <= k < |MriNames|
      ensures MriNames[k] in DefaultSymbols && DefaultSymbols[MriNames[k]] == Symbol(Mri, 0x200 * k)
    {
      EntryFacts(k + 3);
      forall j | k + 3 < j < |DefaultEntries|
        ensures DefaultEntries[j].0 != DefaultEntries[k + 3].0
      {
        EntryFacts(j);
      }
      EntriesMapLookup(DefaultEntries, k + 3);
    }
  }

  /** Every default SI symbol lies in 0o6001..0o7604 (an IOT or operate
      instruction), the pseudo-ops have value -1, and no default is a label. */
  lemma DefaultValueRanges()
    ensures forall n :: n in DefaultSymbols && DefaultSymbols[n].kind == Si ==> 0xC01 <= DefaultSymbols[n].val <= 0xF84
    ensures forall n :: n in DefaultSymbols && DefaultSymbols[n].kind == Pseudo ==> DefaultSymbols[n].val == -1
    ensures forall n :: n in DefaultSymbols ==> DefaultSymbols[n].kind != Label
  {
    forall n | n in DefaultSymbols
      ensures DefaultSymbols[n].kind == Si ==> 0xC01 <= DefaultSymbols[n].val <= 0xF84
      ensures DefaultSymbols[n].kind == Pseudo ==> DefaultSymbols[n].val == -1
      ensures DefaultSymbols[n].kind != Label
    {
      EntriesMapFrom(DefaultEntries, n);
      var i :| 0 <= i < |DefaultEntries| && DefaultEntries[i] == (n, DefaultSymbols[n]);
      EntryFacts(i);
    }
  }

  /** The default table satisfies the MRI invariant the setters keep. */
  lemma DefaultWellFormed()
    ensures MriWellFormed(DefaultSymbols)
  {
    forall n | n in DefaultSymbols && DefaultSymbols[n].kind == Mri
      ensures IsMriOpcode(DefaultSymbols[n].val)
    {
      EntriesMapFrom(DefaultEntries, n);
      var i :| 0 <= i < |DefaultEntries| && DefaultEntries[i] == (n, DefaultSymbols[n]);
      EntryFacts(i);
    }
  }
}
