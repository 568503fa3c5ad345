/** The writers of the assembled image: the P-object word list read by
    pdpnasm-style loaders, the RIM paper-tape byte stream, the `?core=` URL
    of a web front panel, and the size report. Each writer visits the
    addresses in ascending order; each is stated as a function of the
    memory, and each is paired with a reader or with another format. */
module Exporter {
  import opened Wrappers
  import opened Bits
  import opened Numerals

  /** The assembled image: address to word, as sparse as the program. */
  type Memory = map<int, int>

  /** 0o170000: the four bits above a 12-bit address mark an origin word. */
  const OriginBits: int := 0xF000
  /** 0o200: the RIM leader and trailer byte. */
  const Leader: int := 0x80
  /** 0o100: the bit that marks the first byte of a RIM address. */
  const AddressMark: int := 0x40
  /** The PDP-8 address space: 0 .. 0o7777. */
  const WordCount: int := 0x1000

  predicate Increasing(ks: seq<int>)
  {
    forall i, j :: 0 <= i < j < |ks| ==> ks[i] < ks[j]
  }

  /** Go's `m[a]`: the word at `a`, or the zero value at an unused address. */
  function Word(m: Memory, a: int): int
  {
    if a in m then m[a] else 0
  }

  /** Every address in `ks` is in use in `m`. */
  predicate KeysIn(ks: seq<int>, m: Memory)
  {
    forall j :: 0 <= j < |ks| ==> ks[j] in m
  }

  /** Every address and every word fits in twelve bits. */
  predicate InRange(m: Memory)
  {
    forall a :: a in m ==> 0 <= a < WordCount && 0 <= m[a] < WordCount
  }

  // ---------------------------------------------------------------------
  // Keys in ascending order

  ghost function Element(s: set<int>): (x: int)
    requires s != {}
    ensures x in s
  {
    NonEmpty(s);
    var x :| x in s; x
  }

  lemma NonEmpty(s: set<int>)
    requires s != {}
    ensures exists x :: x in s
  {
    NoneMeansEmpty(s);
  }

  lemma NoneMeansEmpty(s: set<int>)
    ensures (forall x :: x !in s) ==> s == {}
  {
    if forall x :: x !in s {
      assert s == {};
    }
  }

  ghost function Least(s: set<int>): (k: int)
    requires s != {}
    ensures k in s && forall x :: x in s ==> k <= x
    decreases |s|
  {
    var x := Element(s);
    if s == {x} then x
    else
      var y := Least(s - {x});
      assert forall z :: z in s ==> z == x || z in s - {x};
      if x < y then x else y
  }

  /** The elements of `s`, smallest first. */
  ghost function Ascending(s: set<int>): (ks: seq<int>)
    ensures |ks| == |s|
    ensures forall k :: k in ks <==> k in s
    decreases |s|
  {
    if s == {} then [] else [Least(s)] + Ascending(s - {Least(s)})
  }

  lemma {:induction false} AscendingIncreasing(s: set<int>)
    ensures Increasing(Ascending(s))
    decreases |s|
  {
    if s != {} {
      var k := Least(s);
      var rest := Ascending(s - {k});
      AscendingIncreasing(s - {k});
      forall j | 0 <= j < |rest|
        ensures k < rest[j]
      {
        assert rest[j] in rest;
      }
      IncreasingCons(k, rest);
    }
  }

  lemma IncreasingCons(k: int, rest: seq<int>)
    requires Increasing(rest)
    requires forall j :: 0 <= j < |rest| ==> k < rest[j]
    ensures Increasing([k] + rest)
  {
  }

  lemma ConcatAssoc<T>(a: seq<T>, b: seq<T>, c: seq<T>)
    ensures a + (b + c) == (a + b) + c
  {
  }

  lemma AscendingStep(s: set<int>, k: int)
    requires k in s && forall x :: x in s ==> k <= x
    ensures Ascending(s) == [k] + Ascending(s - {k})
  {
    assert Least(s) == k;
  }

  lemma AscendingKeysIn(m: Memory)
    ensures KeysIn(Ascending(m.Keys), m)
  {
    var ks := Ascending(m.Keys);
    forall j | 0 <= j < |ks|
      ensures ks[j] in m
    {
      assert ks[j] in ks;
    }
  }

  /** The key slice and `sort.Ints` that open every writer. */
  method SortedKeys(m: Memory) returns (ks: seq<int>)
    ensures ks == Ascending(m.Keys)
  {
    ks := [];
    var rest := m.Keys;
    while rest != {}
      invariant ks + Ascending(rest) == Ascending(m.Keys)
      decreases |rest|
    {
      ghost var least := Least(rest);
      assert least in rest && forall x :: x in rest ==> least <= x;
      var k :| k in rest && forall x :: x in rest ==> k <= x;
      AscendingStep(rest, k);
      ConcatAssoc(ks, [k], Ascending(rest - {k}));
      ks := ks + [k];
      rest := rest - {k};
    }
  }

  /** The entries of `m` at the addresses in `ks`. */
  function Restrict(m: Memory, ks: seq<int>): Memory
  {
    map k | k in ks :: Word(m, k)
  }

  lemma RestrictAll(m: Memory)
    ensures map[] + Restrict(m, Ascending(m.Keys)) == m
  {
    RestrictCovers(m, Ascending(m.Keys));
  }

  lemma RestrictCovers(m: Memory, ks: seq<int>)
    requires forall k :: k in ks <==> k in m
    ensures map[] + Restrict(m, ks) == m
  {
    var r := Restrict(m, ks);
    assert map[] + r == r;
    assert r.Keys == m.Keys;
  }

  // ---------------------------------------------------------------------
  // P-object format

  /** `addr | 0o170000`. */
  function OriginWord(addr: int): int
  {
    Or(addr, OriginBits)
  }

  /** A word with bits 12 to 15 all set and nothing above: an origin. */
  predicate IsOriginWord(w: int)
  {
    OriginBits <= w < OriginBits + WordCount
  }

  lemma OriginWordValue(addr: int)
    requires 0 <= addr < WordCount
    ensures OriginWord(addr) == addr + OriginBits && IsOriginWord(OriginWord(addr))
    ensures OriginWord(addr) % WordCount == addr
  {
    Pow2Values();
    OrDisjoint(addr, OriginBits, 12);
  }

  /** The words written for the entries at `ks` when the entry before them
      was at `last`: an origin word before an entry that does not follow on,
      then the entry's word. */
  function PObjectFrom(m: Memory, ks: seq<int>, last: int): (ws: seq<int>)
    ensures |ks| <= |ws| <= 2 * |ks|
  {
    if ks == [] then []
    else
      (if ks[0] > last + 1 then [OriginWord(ks[0])] else []) + [Word(m, ks[0])]
      + PObjectFrom(m, ks[1..], ks[0])
  }

  ghost function PObjectWords(m: Memory): seq<int>
  {
    PObjectFrom(m, Ascending(m.Keys), -1)
  }

  /** One word as `"%o\n"` writes it. */
  function Line(w: int): string
  {
    FormatOctal(w) + "\n"
  }

  /** Each word on a line of its own. */
  function Lines(ws: seq<int>): string
  {
    if ws == [] then "" else Line(ws[0]) + Lines(ws[1..])
  }

  ghost function PObjectText(m: Memory): string
  {
    Lines(PObjectWords(m))
  }

  lemma {:induction false} LinesAppend(a: seq<int>, b: seq<int>)
    ensures Lines(a + b) == Lines(a) + Lines(b)
    decreases |a|
  {
    if a != [] {
      assert (a + b)[0] == a[0] && (a + b)[1..] == a[1..] + b;
      LinesAppend(a[1..], b);
      var d := Line(a[0]);
      assert Lines(a + b) == d + (Lines(a[1..]) + Lines(b));
      assert Lines(a) + Lines(b) == (d + Lines(a[1..])) + Lines(b);
    } else {
      assert a + b == b;
    }
  }

  lemma LinesOne(w: int)
    ensures Lines([w]) == Line(w)
  {
    assert [w][1..] == [];
  }

  /** The lines written for one entry. */
  function EntryLines(addr: int, last: int, w: int): string
  {
    OriginLines(addr, last) + Line(w)
  }

  /** The origin line written before an entry that does not follow on. */
  function OriginLines(addr: int, last: int): string
  {
    if addr > last + 1 then Line(OriginWord(addr)) else ""
  }

  lemma PObjectTextStep(m: Memory, ks: seq<int>, last: int)
    requires ks != []
    ensures Lines(PObjectFrom(m, ks, last))
      == EntryLines(ks[0], last, Word(m, ks[0])) + Lines(PObjectFrom(m, ks[1..], ks[0]))
  {
    var a := ks[0];
    var origin := if a > last + 1 then [OriginWord(a)] else [];
    var rest := PObjectFrom(m, ks[1..], a);
    LinesAppend(origin + [Word(m, a)], rest);
    LinesAppend(origin, [Word(m, a)]);
    LinesOne(Word(m, a));
    if a > last + 1 {
      LinesOne(OriginWord(a));
    }
    ConcatAssoc(Lines(origin), Lines([Word(m, a)]), Lines(rest));
  }

  /** One turn of exportPObject's loop writes the lines of `keys[i]`. */
  lemma PObjectLoopStep(m: Memory, keys: seq<int>, i: int, last: int, before: string)
    requires 0 <= i < |keys|
    ensures before + Lines(PObjectFrom(m, keys[i..], last))
      == before + OriginLines(keys[i], last) + Line(Word(m, keys[i]))
         + Lines(PObjectFrom(m, keys[i + 1..], keys[i]))
  {
    var addr := keys[i];
    PObjectTextStep(m, keys[i..], last);
    assert keys[i..][1..] == keys[i + 1..];
    var rest := Lines(PObjectFrom(m, keys[i + 1..], addr));
    ConcatAssoc(before, EntryLines(addr, last, Word(m, addr)), rest);
    ConcatAssoc(before, OriginLines(addr, last), Line(Word(m, addr)));
  }

  /** exportPObject. */
  method ExportPObject(m: Memory) returns (text: string)
    ensures text == PObjectText(m)
  {
    var keys := SortedKeys(m);
    text := "";
    var lastAddr := -1;
    for i := 0 to |keys|
      invariant text + Lines(PObjectFrom(m, keys[i..], lastAddr)) == PObjectText(m)
    {
      var addr := keys[i];
      ghost var before := text;
      text := text + OriginLines(addr, lastAddr);
      text := text + Line(Word(m, addr));
      PObjectLoopStep(m, keys, i, lastAddr, before);
      lastAddr := addr;
    }
  }

  /** A P-object loader: start at address 0; an origin word moves the load
      address, any other word is stored there and the address moves on. */
  function Load(ws: seq<int>, addr: int, mem: Memory): Memory
  {
    if ws == [] then mem
    else if IsOriginWord(ws[0]) then Load(ws[1..], ws[0] % WordCount, mem)
    else Load(ws[1..], addr + 1, mem[addr := ws[0]])
  }

  /** Length of the first line of `s`, without its terminator. */
  function LineLength(s: string): (n: nat)
    ensures n <= |s| && (n < |s| ==> s[n] == '\n')
    ensures forall i :: 0 <= i < n ==> s[i] != '\n'
  {
    if s == [] || s[0] == '\n' then 0 else 1 + LineLength(s[1..])
  }

  /** Reads a text of newline-terminated octal numbers. */
  function ReadWords(s: string): Option<seq<int>>
    decreases |s|
  {
    if s == [] then Some([])
    else
      var n := LineLength(s);
      if n == 0 || n == |s| || !AllDigits(s[..n], 8) then None
      else
        match ReadWords(s[n + 1..])
        case None => None
        case Some(rest) => Some([DigitsValue(s[..n], 8)] + rest)
  }

  /** Reading a .po text: its numbers, then the loader from address 0. */
  function ReadPObject(s: string): Option<Memory>
  {
    match ReadWords(s)
    case None => None
    case Some(ws) => Some(Load(ws, 0, map[]))
  }

  lemma {:induction false} LineLengthOfLine(d: string, rest: string)
    requires forall i :: 0 <= i < |d| ==> d[i] != '\n'
    ensures LineLength(d + "\n" + rest) == |d|
    decreases |d|
  {
    if d != [] {
      assert (d + "\n" + rest)[1..] == d[1..] + "\n" + rest;
      LineLengthOfLine(d[1..], rest);
    }
  }

  /** A line of octal digits is read as its value, then the rest is read. */
  lemma ReadWordsLine(d: string, rest: string)
    requires |d| > 0 && AllDigits(d, 8)
    requires forall i :: 0 <= i < |d| ==> d[i] != '\n'
    ensures ReadWords(d + "\n" + rest)
      == match ReadWords(rest)
         case None => None
         case Some(ws) => Some([DigitsValue(d, 8)] + ws)
  {
    var s := d + "\n" + rest;
    LineLengthOfLine(d, rest);
    assert s[..|d|] == d;
    assert s[|d| + 1..] == rest;
  }

  /** The text of non-negative words reads back as those words. */
  lemma {:induction false} ReadLines(ws: seq<int>)
    requires forall i :: 0 <= i < |ws| ==> ws[i] >= 0
    ensures ReadWords(Lines(ws)) == Some(ws)
    decreases |ws|
  {
    if ws != [] {
      ReadLines(ws[1..]);
      ReadLinesStep(ws);
    }
  }

  lemma ReadLinesStep(ws: seq<int>)
    requires ws != [] && ws[0] >= 0
    requires ReadWords(Lines(ws[1..])) == Some(ws[1..])
    ensures ReadWords(Lines(ws)) == Some(ws)
  {
    var d := OctalDigits(ws[0]);
    OctalDigitsValue(ws[0]);
    assert Lines(ws) == d + "\n" + Lines(ws[1..]);
    ReadWordsLine(d, Lines(ws[1..]));
    assert ws == [ws[0]] + ws[1..];
  }

  lemma {:induction false} PObjectFromRange(m: Memory, ks: seq<int>, last: int)
    requires InRange(m) && KeysIn(ks, m)
    ensures forall i :: 0 <= i < |PObjectFrom(m, ks, last)| ==> PObjectFrom(m, ks, last)[i] >= 0
    decreases |ks|
  {
    if ks != [] {
      assert ks[0] in ks;
      OriginWordValue(ks[0]);
      PObjectFromRange(m, ks[1..], ks[0]);
    }
  }

  /** The loader on a stream that starts with `w`. */
  lemma LoadCons(w: int, rest: seq<int>, addr: int, mem: Memory)
    ensures Load([w] + rest, addr, mem)
      == if IsOriginWord(w) then Load(rest, w % WordCount, mem) else Load(rest, addr + 1, mem[addr := w])
  {
    var ws := [w] + rest;
    assert ws[0] == w && ws[1..] == rest;
  }

  /** Loading the words of the first entry stores its word at its address. */
  lemma LoadPObjectStep(m: Memory, ks: seq<int>, last: int, mem: Memory)
    requires InRange(m) && ks != [] && 0 <= ks[0] < WordCount
    requires last < ks[0]
    ensures Load(PObjectFrom(m, ks, last), last + 1, mem)
      == Load(PObjectFrom(m, ks[1..], ks[0]), ks[0] + 1, mem[ks[0] := Word(m, ks[0])])
  {
    var a := ks[0];
    var w := Word(m, a);
    var rest := PObjectFrom(m, ks[1..], a);
    assert !IsOriginWord(w);
    LoadCons(w, rest, a, mem);
    if a > last + 1 {
      OriginWordValue(a);
      LoadCons(OriginWord(a), [w] + rest, last + 1, mem);
      ConcatAssoc([OriginWord(a)], [w], rest);
    } else {
      assert PObjectFrom(m, ks, last) == [] + [w] + rest;
      assert [] + [w] == [w];
    }
  }

  lemma RestrictStep(m: Memory, ks: seq<int>, mem: Memory)
    requires ks != []
    ensures mem[ks[0] := Word(m, ks[0])] + Restrict(m, ks[1..]) == mem + Restrict(m, ks)
  {
    assert forall k :: k in ks <==> k == ks[0] || k in ks[1..];
  }

  /** Loading the words written for `ks` after `last` adds exactly those
      entries to what was loaded before. */
  lemma {:induction false} LoadPObjectFrom(m: Memory, ks: seq<int>, last: int, mem: Memory)
    requires InRange(m) && Increasing(ks) && KeysIn(ks, m)
    requires ks != [] ==> last < ks[0]
    ensures Load(PObjectFrom(m, ks, last), last + 1, mem) == mem + Restrict(m, ks)
    decreases |ks|
  {
    if ks != [] {
      var a := ks[0];
      LoadPObjectStep(m, ks, last, mem);
      assert KeysIn(ks[1..], m);
      assert Increasing(ks[1..]);
      LoadPObjectFrom(m, ks[1..], a, mem[a := Word(m, a)]);
      RestrictStep(m, ks, mem);
    }
  }

  /** Reading back a written .po text restores the memory image, as long as
      addresses and words fit in twelve bits. */
  lemma PObjectRoundTrip(m: Memory)
    requires InRange(m)
    ensures ReadPObject(PObjectText(m)) == Some(m)
  {
    PObjectTextReads(m);
    PObjectWordsLoad(m);
  }

  /** The .po text reads back as the word stream. */
  lemma PObjectTextReads(m: Memory)
    requires InRange(m)
    ensures ReadWords(PObjectText(m)) == Some(PObjectWords(m))
  {
    PObjectFromRange(m, Ascending(m.Keys), -1);
    ReadLines(PObjectWords(m));
  }

  /** The loader rebuilds the image from the word stream. */
  lemma PObjectWordsLoad(m: Memory)
    requires InRange(m)
    ensures Load(PObjectWords(m), 0, map[]) == m
  {
    AscendingIncreasing(m.Keys);
    AscendingKeysIn(m);
    LoadPObjectFrom(m, Ascending(m.Keys), -1, map[]);
    RestrictAll(m);
  }

  // ---------------------------------------------------------------------
  // RIM format

  /** `byte(x)` in Go: the low eight bits. */
  function ToByte(x: int): int
  {
    x % 256
  }

  /** The four tape bytes for one entry: the address with 0o100 set in its
      first byte, then the word, six bits per byte, high half first. */
  function RimEntry(addr: int, w: int): seq<int>
  {
    RimAddress(addr) + RimData(w)
  }

  /** The two address bytes, the first marked with 0o100. */
  function RimAddress(addr: int): seq<int>
  {
    [Or(ToByte(And(addr, 0xFC0) / 64), AddressMark), ToByte(And(addr, 0x3F))]
  }

  /** The two data bytes. */
  function RimData(w: int): seq<int>
  {
    [ToByte(And(w, 0xFC0) / 64), ToByte(And(w, 0x3F))]
  }

  function RimBody(m: Memory, ks: seq<int>): (r: seq<int>)
    ensures |r| == 4 * |ks|
  {
    if ks == [] then [] else RimEntry(ks[0], Word(m, ks[0])) + RimBody(m, ks[1..])
  }

  ghost function RimTape(m: Memory): seq<int>
  {
    [Leader, Leader] + RimBody(m, Ascending(m.Keys)) + [Leader, Leader]
  }

  /** One turn of exportRim's loop punches the entry at `keys[i]`. */
  lemma RimLoopStep(m: Memory, keys: seq<int>, i: int, before: seq<int>, addressBytes: seq<int>, dataBytes: seq<int>)
    requires 0 <= i < |keys|
    requires addressBytes == RimAddress(keys[i]) && dataBytes == RimData(Word(m, keys[i]))
    ensures before + RimBody(m, keys[i..]) == before + addressBytes + dataBytes + RimBody(m, keys[i + 1..])
  {
    assert keys[i..][1..] == keys[i + 1..];
    ConcatAssoc(before, addressBytes, dataBytes);
    ConcatAssoc(before, addressBytes + dataBytes, RimBody(m, keys[i + 1..]));
  }

  /** exportRim (the write error of the underlying writer is not modelled). */
  method ExportRim(m: Memory) returns (p: seq<int>)
    ensures p == RimTape(m)
  {
    var keys := SortedKeys(m);
    p := [Leader, Leader];
    for i := 0 to |keys|
      invariant p + RimBody(m, keys[i..]) == [Leader, Leader] + RimBody(m, keys)
    {
      var addr := keys[i];
      ghost var before := p;
      var addressBytes := [Or(ToByte(And(addr, 0xFC0) / 64), 0x40), ToByte(And(addr, 0x3F))];
      p := p + addressBytes;
      var inst := Word(m, addr);
      var dataBytes := [ToByte(And(inst, 0xFC0) / 64), ToByte(And(inst, 0x3F))];
      p := p + dataBytes;
      RimLoopStep(m, keys, i, before, addressBytes, dataBytes);
    }
    assert RimBody(m, keys[|keys|..]) == [];
    assert p == [Leader, Leader] + RimBody(m, keys);
    p := p + [Leader, Leader];
  }

  /** Two six-bit halves put back together, as the RIM loader does. */
  function Join6(hi: int, lo: int): int
  {
    (hi % 64) * 64 + lo % 64
  }

  /** The low six bits of `x`, as exportRim writes them. */
  lemma LowSix(x: int)
    ensures ToByte(And(x, 0x3F)) == x % 64
  {
    Pow2Values();
    AndLowMask(x, 6);
  }

  /** Bits 6 to 11 of `x`, as exportRim writes them. */
  lemma HighSix(x: int)
    ensures ToByte(And(x, 0xFC0) / 64) == (x / 64) % 64
  {
    Pow2Values();
    AndShifted(x, 63, 6);
    AndLowMask(x / 64, 6);
    var h := (x / 64) % 64;
    assert And(x, 0xFC0) == 64 * h;
    assert 64 * h / 64 == h;
  }

  /** The two halves make up the low twelve bits. */
  lemma TwelveBits(x: int)
    ensures x % WordCount == ((x / 64) % 64) * 64 + x % 64
  {
    var q, r := x / 64, x % 64;
    var q2, r2 := q / 64, q % 64;
    assert x == 4096 * q2 + (64 * r2 + r);
    DivModUnique(x, 4096, q2, 64 * r2 + r);
  }

  /** Two six-bit halves join to the twelve-bit value they make up. */
  lemma Join6Halves(h: int, l: int)
    requires 0 <= h < 64 && 0 <= l < 64
    ensures Join6(h, l) == h * 64 + l
  {
    DivModUnique(h, 64, 0, h);
    DivModUnique(l, 64, 0, l);
  }

  lemma MarkedHigh(h: int)
    requires 0 <= h < 64
    ensures Or(h, AddressMark) == h + AddressMark
  {
    Pow2Values();
    OrDisjoint(h, AddressMark, 6);
  }

  /** Every entry is four bytes: the first has 0o100 set and 0o200 clear,
      the other three are below 0o100; the halves put together give the low
      twelve bits of the address and of the word. */
  lemma RimEntryLayout(addr: int, w: int)
    ensures var e := RimEntry(addr, w);
      && AddressMark <= e[0] < 2 * AddressMark
      && 0 <= e[1] < 64 && 0 <= e[2] < 64 && 0 <= e[3] < 64
      && Join6(e[0], e[1]) == addr % WordCount
      && Join6(e[2], e[3]) == w % WordCount
  {
    var e := RimEntry(addr, w);
    var hi, lo := ToByte(And(addr, 0xFC0) / 64), ToByte(And(addr, 0x3F));
    SixBitHalves(addr);
    SixBitHalves(w);
    MarkedHigh(hi);
    assert e[0] == hi + AddressMark && e[1] == lo;
    Join6Marked(hi, lo);
  }

  /** The mark bit does not disturb the joined address. */
  lemma Join6Marked(hi: int, lo: int)
    requires 0 <= hi < 64
    ensures Join6(hi + AddressMark, lo) == Join6(hi, lo)
  {
    DivModUnique(hi + 64, 64, 1, hi);
    DivModUnique(hi, 64, 0, hi);
  }

  /** The two six-bit bytes written for `x` are below 0o100 and join to
      its low twelve bits. */
  lemma SixBitHalves(x: int)
    ensures var hi, lo := ToByte(And(x, 0xFC0) / 64), ToByte(And(x, 0x3F));
      0 <= hi < 64 && 0 <= lo < 64 && Join6(hi, lo) == x % WordCount
  {
    HighSix(x);
    LowSix(x);
    TwelveBits(x);
    Join6Halves((x / 64) % 64, x % 64);
  }

  /** `exportRim` writes four bytes per entry and two bytes each of leader
      and trailer. */
  lemma RimTapeLength(m: Memory)
    ensures |RimTape(m)| == 4 + 4 * |m|
  {
  }

  /** A RIM reader: two leader bytes, four bytes per entry, two trailer bytes. */
  function ReadRim(tape: seq<int>): Option<Memory>
  {
    if |tape| >= 4 && tape[..2] == [Leader, Leader] && tape[|tape| - 2..] == [Leader, Leader]
       && (|tape| - 4) % 4 == 0
    then Some(LoadRim(tape[2..|tape| - 2], map[]))
    else None
  }

  function LoadRim(body: seq<int>, mem: Memory): Memory
    requires |body| % 4 == 0
    decreases |body|
  {
    if body == [] then mem
    else LoadRim(body[4..], mem[Join6(body[0], body[1]) := Join6(body[2], body[3])])
  }

  /** Loading the first entry of a body. */
  lemma LoadRimStep(m: Memory, ks: seq<int>, mem: Memory)
    requires ks != []
    ensures LoadRim(RimBody(m, ks), mem)
      == LoadRim(RimBody(m, ks[1..]), mem[ks[0] % WordCount := Word(m, ks[0]) % WordCount])
  {
    var body := RimBody(m, ks);
    RimEntryLayout(ks[0], Word(m, ks[0]));
    assert body[4..] == RimBody(m, ks[1..]);
    assert body[..4] == RimEntry(ks[0], Word(m, ks[0]));
  }

  lemma TruncatedStep(m: Memory, ks: seq<int>, mem: Memory)
    requires ks != []
    ensures mem[ks[0] := Word(m, ks[0]) % WordCount] + (map k | k in ks[1..] :: Word(m, k) % WordCount)
      == mem + map k | k in ks :: Word(m, k) % WordCount
  {
    assert forall k :: k in ks <==> k == ks[0] || k in ks[1..];
  }

  lemma {:induction false} LoadRimBody(m: Memory, ks: seq<int>, mem: Memory)
    requires KeysIn(ks, m) && forall a :: a in m ==> 0 <= a < WordCount
    ensures LoadRim(RimBody(m, ks), mem) == mem + map k | k in ks :: Word(m, k) % WordCount
    decreases |ks|
  {
    if ks != [] {
      var a := ks[0];
      LoadRimStep(m, ks, mem);
      assert a in ks;
      DivModUnique(a, WordCount, 0, a);
      assert KeysIn(ks[1..], m);
      LoadRimBody(m, ks[1..], mem[a := Word(m, a) % WordCount]);
      TruncatedStep(m, ks, mem);
    }
  }

  lemma Framed(body: seq<int>)
    requires |body| % 4 == 0
    ensures ReadRim([Leader, Leader] + body + [Leader, Leader]) == Some(LoadRim(body, map[]))
  {
    var t := [Leader, Leader] + body + [Leader, Leader];
    assert t[..2] == [Leader, Leader];
    assert t[|t| - 2..] == [Leader, Leader];
    assert t[2..|t| - 2] == body;
  }

  /** Reading a written tape gives back every address with the low twelve
      bits of its word. */
  lemma RimRoundTrip(m: Memory)
    requires forall a :: a in m ==> 0 <= a < WordCount
    ensures ReadRim(RimTape(m)) == Some(map a | a in m :: m[a] % WordCount)
  {
    AscendingKeysIn(m);
    RimTapeReads(m, Ascending(m.Keys));
  }

  lemma RimTapeReads(m: Memory, ks: seq<int>)
    requires KeysIn(ks, m) && forall k :: k in ks <==> k in m
    requires forall a :: a in m ==> 0 <= a < WordCount
    ensures ReadRim([Leader, Leader] + RimBody(m, ks) + [Leader, Leader])
      == Some(map a | a in m :: m[a] % WordCount)
  {
    Framed(RimBody(m, ks));
    LoadRimBody(m, ks, map[]);
    RimImage(m, ks);
  }

  lemma RimImage(m: Memory, ks: seq<int>)
    requires forall k :: k in ks <==> k in m
    ensures (map[] + map k | k in ks :: Word(m, k) % WordCount) == map a | a in m :: m[a] % WordCount
  {
    var loaded := map k | k in ks :: Word(m, k) % WordCount;
    var image := map a | a in m :: m[a] % WordCount;
    assert map[] + loaded == loaded;
    assert loaded.Keys == image.Keys;
    forall a | a in loaded
      ensures loaded[a] == image[a]
    {
    }
  }

  // ---------------------------------------------------------------------
  // URL format

  /** `"*0%o,"`: a change of address. */
  function UrlOrigin(addr: int): string
  {
    "*0" + FormatOctal(addr) + ","
  }

  /** `"0%o"`: a word. */
  function UrlWord(w: int): string
  {
    "0" + FormatOctal(w)
  }

  /** What exportURL appends before an entry that does not follow on. */
  function UrlGap(addr: int, last: int): string
  {
    if addr > last + 1 then UrlOrigin(addr) else ""
  }

  /** The word of an entry; `final` for the last one, which gets no
      trailing comma. */
  function UrlItem(w: int, final: bool): string
  {
    if final then UrlWord(w) else UrlWord(w) + ","
  }

  /** What exportURL appends for one entry. */
  function UrlEntry(addr: int, last: int, w: int, final: bool): string
  {
    UrlGap(addr, last) + UrlItem(w, final)
  }

  /** The `core=` value for the entries at `ks` after an entry at `last`. */
  function UrlFrom(m: Memory, ks: seq<int>, last: int): string
  {
    if ks == [] then ""
    else UrlEntry(ks[0], last, Word(m, ks[0]), |ks| == 1) + UrlFrom(m, ks[1..], ks[0])
  }

  ghost function Url(urlBase: string, m: Memory): string
  {
    urlBase + "?core=" + UrlFrom(m, Ascending(m.Keys), -1)
  }

  /** One turn of exportURL's loop consumes the entry at `keys[i]`. */
  lemma UrlLoopStep(m: Memory, keys: seq<int>, i: int, last: int, before: string, mid: string, after: string)
    requires 0 <= i < |keys|
    requires mid == before + UrlGap(keys[i], last)
    requires after == mid + UrlItem(Word(m, keys[i]), i == |keys| - 1)
    ensures before + UrlFrom(m, keys[i..], last) == after + UrlFrom(m, keys[i + 1..], keys[i])
  {
    var addr, ks := keys[i], keys[i..];
    assert ks[0] == addr && ks[1..] == keys[i + 1..];
    var gap, item := UrlGap(addr, last), UrlItem(Word(m, addr), |ks| == 1);
    ConcatAssoc(before, gap, item);
    ConcatAssoc(before, gap + item, UrlFrom(m, keys[i + 1..], addr));
  }

  /** exportURL, returning the link it prints. */
  method ExportUrl(urlBase: string, m: Memory) returns (link: string)
    ensures link == Url(urlBase, m)
  {
    var keys := SortedKeys(m);
    link := urlBase + "?core=";
    var lastAddr := -1;
    for i := 0 to |keys|
      invariant link + UrlFrom(m, keys[i..], lastAddr) == Url(urlBase, m)
    {
      var addr := keys[i];
      ghost var before := link;
      link := link + UrlGap(addr, lastAddr);
      ghost var mid := link;
      link := link + UrlItem(Word(m, addr), i == |keys| - 1);
      UrlLoopStep(m, keys, i, lastAddr, before, mid, link);
      lastAddr := addr;
    }
    assert keys[|keys|..] == [];
  }

  /** The URL token for one P-object word. */
  function UrlToken(w: int): string
  {
    if IsOriginWord(w) then "*0" + FormatOctal(w % WordCount) else UrlWord(w)
  }

  function UrlTokens(ws: seq<int>): (ts: seq<string>)
    ensures |ts| == |ws|
  {
    if ws == [] then [] else [UrlToken(ws[0])] + UrlTokens(ws[1..])
  }

  /** Tokens separated by commas. */
  function Join(ts: seq<string>): string
  {
    if ts == [] then "" else if |ts| == 1 then ts[0] else ts[0] + "," + Join(ts[1..])
  }

  lemma JoinCons(t: string, ts: seq<string>)
    ensures Join([t] + ts) == t + (if ts == [] then "" else "," + Join(ts))
  {
    assert ([t] + ts)[0] == t && ([t] + ts)[1..] == ts;
    if ts != [] {
      ConcatAssoc(t, ",", Join(ts));
    }
  }

  lemma {:induction false} UrlTokensAppend(a: seq<int>, b: seq<int>)
    ensures UrlTokens(a + b) == UrlTokens(a) + UrlTokens(b)
    decreases |a|
  {
    if a != [] {
      assert (a + b)[0] == a[0] && (a + b)[1..] == a[1..] + b;
      UrlTokensAppend(a[1..], b);
    } else {
      assert a + b == b;
    }
  }

  /** The tokens of one entry's words followed by the rest. */
  lemma UrlTokensStep(m: Memory, ks: seq<int>, last: int)
    requires InRange(m) && ks != [] && 0 <= ks[0] < WordCount
    ensures var a := ks[0];
      UrlTokens(PObjectFrom(m, ks, last))
        == (if a > last + 1 then ["*0" + FormatOctal(a)] else [])
           + [UrlWord(Word(m, a))] + UrlTokens(PObjectFrom(m, ks[1..], a))
  {
    var a := ks[0];
    var origin := if a > last + 1 then [OriginWord(a)] else [];
    var rest := PObjectFrom(m, ks[1..], a);
    UrlTokensAppend(origin + [Word(m, a)], rest);
    UrlTokensAppend(origin, [Word(m, a)]);
    assert UrlTokens([Word(m, a)]) == [UrlWord(Word(m, a))] by {
      assert [Word(m, a)][1..] == [];
    }
    if a > last + 1 {
      OriginWordValue(a);
      assert UrlTokens([OriginWord(a)]) == ["*0" + FormatOctal(a)] by {
        assert [OriginWord(a)][1..] == [];
      }
    }
  }

  /** The URL carries the P-object word stream: one comma-separated token
      per word, `*0<addr>` for an origin and `0<word>` for a word. */
  lemma {:induction false} UrlMatchesPObject(m: Memory, ks: seq<int>, last: int)
    requires InRange(m) && KeysIn(ks, m)
    ensures UrlFrom(m, ks, last) == Join(UrlTokens(PObjectFrom(m, ks, last)))
    decreases |ks|
  {
    if ks != [] {
      var a := ks[0];
      assert KeysIn(ks[1..], m);
      UrlMatchesPObject(m, ks[1..], a);
      UrlTokensStep(m, ks, last);
      var rest := UrlTokens(PObjectFrom(m, ks[1..], a));
      var word := UrlWord(Word(m, a));
      var item := UrlItem(Word(m, a), |ks| == 1);
      assert |ks| == 1 <==> rest == [];
      assert UrlFrom(m, ks[1..], a) == Join(rest);
      JoinCons(word, rest);
      if rest != [] {
        ConcatAssoc(word, ",", Join(rest));
      }
      assert Join([word] + rest) == item + Join(rest);
      if a > last + 1 {
        var o := "*0" + FormatOctal(a);
        JoinCons(o, [word] + rest);
        assert [o] + ([word] + rest) == [o] + [word] + rest;
        assert UrlOrigin(a) == o + ",";
        ConcatAssoc(o, ",", item + Join(rest));
        ConcatAssoc(UrlOrigin(a), item, Join(rest));
      } else {
        assert [] + [word] + rest == [word] + rest;
        assert "" + item == item;
      }
    }
  }

  /** For a whole image: the link is the base, `?core=`, and the P-object
      words as tokens. */
  lemma UrlIsPObject(urlBase: string, m: Memory)
    requires InRange(m)
    ensures Url(urlBase, m) == urlBase + "?core=" + Join(UrlTokens(PObjectWords(m)))
  {
    UrlMatchesPObject(m, Ascending(m.Keys), -1);
  }

  // ---------------------------------------------------------------------
  // Size report

  datatype SizeReport = SizeReport(used: int, free: int, total: int)

  /** exportSize as written: the total is 0o7777 words. */
  function ExportSize(m: Memory): (r: SizeReport)
    ensures r.used == |m| && r.used + r.free == r.total
    ensures r.total == 0xFFF && r.free == 0xFFF - |m|
  {
    SizeReport(|m|, 0xFFF - |m|, 0xFFF)
  }

  /** The addresses lo .. hi - 1. */
  function Range(lo: int, hi: int): (r: set<int>)
    ensures forall a :: a in r <==> lo <= a < hi
    ensures |r| == if lo <= hi then hi - lo else 0
    decreases hi - lo
  {
    if hi <= lo then {} else Range(lo, hi - 1) + {hi - 1}
  }

  /** A memory image that uses every one of the 4096 addresses. */
  ghost predicate Full(m: Memory)
  {
    forall a :: a in m <==> 0 <= a < WordCount
  }

  /** With every one of the 4096 addresses used, the report as written
      gives -1 free words. */
  lemma ExportSizeFullMemory(m: Memory)
    requires Full(m)
    ensures ExportSize(m).free == -1
  {
    assert m.Keys == Range(0, WordCount);
  }

  /** The size report counting the 4096 words 0 .. 0o7777. */
  function MemorySize(m: Memory): (r: SizeReport)
    ensures r.used == |m| && r.used + r.free == r.total
  {
    SizeReport(|m|, WordCount - |m|, WordCount)
  }

  lemma DifferenceCard(all: set<int>, used: set<int>)
    requires used <= all
    ensures |all - used| == |all| - |used|
  {
    assert all * used == used;
  }

  /** For an image inside the address space the free count is exactly the
      number of unused addresses. */
  lemma MemorySizeCounts(m: Memory)
    requires forall a :: a in m ==> 0 <= a < WordCount
    ensures MemorySize(m).free == |Range(0, WordCount) - m.Keys|
    ensures 0 <= MemorySize(m).free <= WordCount
  {
    UnusedCount(m, WordCount);
  }

  lemma UnusedCount(m: Memory, n: nat)
    requires forall a :: a in m ==> 0 <= a < n
    ensures |Range(0, n) - m.Keys| == n - |m|
  {
    var all := Range(0, n);
    assert m.Keys <= all;
    DifferenceCard(all, m.Keys);
  }
}
