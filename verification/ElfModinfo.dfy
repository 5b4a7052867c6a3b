/** The minimal ELF writer and the section reader, and vermagic read through them. */
module ElfModinfo {
  import opened Wrappers
  import opened Utf8

  const EHSIZE: nat := 64
  const SHENTSIZE: nat := 64
  const SHNUM: nat := 3
  const HEADERS: nat := 256
  const STRTAB_SIZE: nat := 20
  const USIZE: nat := 0x1_0000_0000_0000_0000

  const MAGIC: Text := [0x7F, 0x45, 0x4C, 0x46]
  // ".modinfo" and ".shstrtab"
  const MODINFO: Text := [0x2E, 0x6D, 0x6F, 0x64, 0x69, 0x6E, 0x66, 0x6F]
  const SHSTRTAB: Text := [0x2E, 0x73, 0x68, 0x73, 0x74, 0x72, 0x74, 0x61, 0x62]

  const STRTAB: Text := [0] + MODINFO + [0] + SHSTRTAB + [0]

  function Zeros(n: nat): (z: Text)
    ensures |z| == n
  {
    seq(n, _ => 0)
  }

  /** The w low bytes of n, least significant first. */
  function Le(n: nat, w: nat): (b: Text)
    ensures |b| == w
    decreases w
  {
    if w == 0 then [] else [n % 256] + Le(n / 256, w - 1)
  }

  function LeValue(b: Text): nat {
    if b == [] then 0 else LeDigit(b[0]) + 256 * LeValue(b[1..])
  }

  function LeDigit(b: Byte): nat {
    b
  }

  function Pow256(w: nat): nat {
    if w == 0 then 1 else 256 * Pow256(w - 1)
  }

  lemma {:induction false} LeRoundTrip(n: nat, w: nat)
    requires n < Pow256(w)
    ensures LeValue(Le(n, w)) == n
    decreases w
  {
    if w > 0 {
      LeRoundTrip(n / 256, w - 1);
      assert Le(n, w)[1..] == Le(n / 256, w - 1);
    }
  }

  // ------------------------------------------------------------------- layout

  function SectionHeader(name: nat, kind: nat, offset: nat, size: nat): (h: Text)
    ensures |h| == SHENTSIZE
  {
    Le(name, 4) + Le(kind, 4) + Zeros(16) + Le(offset, 8) + Le(size, 8) + Zeros(24)
  }

  function FileIdent(): (h: Text)
    ensures |h| == 24
  {
    MAGIC + [2] + [1] + [1] + Zeros(9) + Le(1, 2) + Le(183, 2) + Le(1, 4)
  }

  function FileTable(): (h: Text)
    ensures |h| == 40
  {
    Zeros(16) + Le(EHSIZE, 8) + Zeros(4) + Le(EHSIZE, 2) + Zeros(4) + Le(SHENTSIZE, 2) + Le(SHNUM, 2) + Le(2, 2)
  }

  /** The whole file, piece by piece. */
  function ElfOf(modinfo: Text): Text {
    FileIdent() + FileTable() + Zeros(SHENTSIZE) + SectionHeader(1, 1, HEADERS + STRTAB_SIZE, |modinfo|)
    + SectionHeader(10, 3, HEADERS, STRTAB_SIZE) + STRTAB + modinfo
  }

  /** Written so far: `done`, and zeros from there on. */
  ghost predicate Frontier(elf: Text, done: Text) {
    |done| <= |elf| && elf == done + Zeros(|elf| - |done|)
  }

  /** copy_from_slice at a fixed offset, past everything written so far. */
  method Put(elf: array<Byte>, off: nat, bytes: Text, ghost done: Text) returns (ghost now: Text)
    requires |done| <= off && off + |bytes| <= elf.Length && Frontier(elf[..], done)
    modifies elf
    ensures now == done + Zeros(off - |done|) + bytes && Frontier(elf[..], now)
    ensures off == |done| ==> now == done + bytes
  {
    ghost var was := elf[..];
    for i := 0 to |bytes|
      invariant elf[..off] == was[..off] && elf[off..off + i] == bytes[..i] && elf[off + i..] == was[off + i..]
    {
      elf[off + i] := bytes[i];
    }
    now := done + Zeros(off - |done|) + bytes;
    assert was[..off] == done + Zeros(off - |done|);
    assert elf[..] == elf[..off] + elf[off..off + |bytes|] + elf[off + |bytes|..];
  }

  method WriteSectionHeader(elf: array<Byte>, at: nat, name: nat, kind: nat, offset: nat, size: nat, ghost done: Text)
      returns (ghost now: Text)
    requires |done| <= at && at + SHENTSIZE <= elf.Length && Frontier(elf[..], done)
    modifies elf
    ensures now == done + Zeros(at - |done|) + SectionHeader(name, kind, offset, size) && Frontier(elf[..], now)
  {
    hide Frontier, Le;
    now := Put(elf, at, Le(name, 4), done);
    now := Put(elf, at + 4, Le(kind, 4), now);
    now := Put(elf, at + 0x18, Le(offset, 8), now);
    now := Put(elf, at + 0x20, Le(size, 8), now);
    now := Pad(elf[..], now, 24);
  }

  lemma Pad(elf: Text, done: Text, n: nat) returns (now: Text)
    requires Frontier(elf, done) && |done| + n <= |elf|
    ensures now == done + Zeros(n) && Frontier(elf, now)
  {
    now := done + Zeros(n);
    assert Zeros(|elf| - |done|) == Zeros(n) + Zeros(|elf| - |done| - n);
  }

  /** reloc_elf_with_modinfo: a zeroed buffer filled field by field. */
  method RelocElfWithModinfo(modinfo: Text) returns (elf: array<Byte>)
    ensures fresh(elf) && elf[..] == ElfOf(modinfo)
  {
    hide Frontier, FileIdent, FileTable, SectionHeader;
    var shstrtabOff := EHSIZE + SHNUM * SHENTSIZE;
    var modinfoOff := shstrtabOff + |STRTAB|;
    elf := new Byte[modinfoOff + |modinfo|](_ => 0);
    ghost var now: Text := [];
    StartOfFile(elf[..]);
    now := WriteIdent(elf);
    now := WriteTable(elf, now);
    now := WriteSectionHeader(elf, EHSIZE + SHENTSIZE, 1, 1, modinfoOff, |modinfo|, now);
    now := WriteSectionHeader(elf, EHSIZE + 2 * SHENTSIZE, 10, 3, shstrtabOff, |STRTAB|, now);
    now := Put(elf, shstrtabOff, STRTAB, now);
    now := Put(elf, modinfoOff, modinfo, now);
    EndOfFile(elf[..], now);
  }

  lemma StartOfFile(elf: Text)
    requires forall i :: 0 <= i < |elf| ==> elf[i] == 0
    ensures Frontier(elf, [])
  {
  }

  lemma EndOfFile(elf: Text, done: Text)
    requires Frontier(elf, done) && |done| == |elf|
    ensures elf == done
  {
  }

  method WriteIdent(elf: array<Byte>) returns (ghost now: Text)
    requires elf.Length >= EHSIZE && Frontier(elf[..], [])
    modifies elf
    ensures now == FileIdent() && Frontier(elf[..], now)
  {
    hide Frontier, Le, Zeros;
    now := Put(elf, 0, MAGIC, []);
    now := Put(elf, 4, [2], now);
    now := Put(elf, 5, [1], now);
    now := Put(elf, 6, [1], now);
    now := Put(elf, 16, Le(1, 2), now);
    now := Put(elf, 18, Le(183, 2), now);
    now := Put(elf, 20, Le(1, 4), now);
  }

  method WriteTable(elf: array<Byte>, ghost done: Text) returns (ghost now: Text)
    requires elf.Length >= EHSIZE && Frontier(elf[..], done) && |done| == 24
    modifies elf
    ensures now == done + FileTable() && Frontier(elf[..], now)
  {
    hide Frontier, Le, Zeros;
    now := Put(elf, 40, Le(EHSIZE, 8), done);
    now := Put(elf, 52, Le(EHSIZE, 2), now);
    now := Put(elf, 58, Le(SHENTSIZE, 2), now);
    now := Put(elf, 60, Le(SHNUM, 2), now);
    now := Put(elf, 62, Le(2, 2), now);
  }

  // ------------------------------------------------------------------- reader

  function Range(b: Text, off: nat, size: nat, error: string): Result<Text> {
    if off + size >= USIZE then Err("overflow")
    else if off + size <= |b| then Ok(b[off..off + size])
    else Err(error)
  }

  function HeaderAt(elf: Text, shoff: nat, entsize: nat, index: nat): (r: Result<Text>)
    ensures r.Ok? ==> |r.value| == entsize
  {
    var start := shoff + index * entsize;
    if start >= USIZE then Err("section offset overflow")
    else if start + entsize <= |elf| then Ok(elf[start..start + entsize])
    else Err("section header is out of bounds")
  }

  function UntilNul(b: Text): (r: Text)
    ensures |r| <= |b| && r == b[..|r|] && 0 !in r && (|r| < |b| ==> b[|r|] == 0)
  {
    if b == [] || b[0] == 0 then [] else [b[0]] + UntilNul(b[1..])
  }

  function NameAt(strings: Text, off: nat): Result<Text> {
    if off > |strings| then Err("invalid section name")
    else
      var name := UntilNul(strings[off..]);
      if ValidUtf8(name) then Ok(name) else Err("section name is not UTF-8")
  }

  function Payload(elf: Text, header: Text): Result<Text>
    requires |header| >= SHENTSIZE
  {
    Range(elf, LeValue(header[0x18..0x20]), LeValue(header[0x20..0x28]), "section payload is out of bounds")
  }

  datatype Table = Table(shoff: nat, entsize: nat, shnum: nat, strings: Text)

  function ReadTable(elf: Text): (r: Result<Table>)
    ensures r.Ok? ==> r.value.entsize >= SHENTSIZE
  {
    if |elf| < 64 || elf[0..4] != MAGIC || elf[4] != 2 || elf[5] != 1 then Err("not a little-endian ELF64 file")
    else
      var shoff, entsize := LeValue(elf[0x28..0x30]), LeValue(elf[0x3a..0x3c]);
      var shnum, shstrndx := LeValue(elf[0x3c..0x3e]), LeValue(elf[0x3e..0x40]);
      if entsize < 64 || shstrndx >= shnum then Err("invalid ELF section-header table")
      else
        var header := HeaderAt(elf, shoff, entsize, shstrndx);
        if header.Err? then Err(header.message)
        else
          var strings := Range(elf, LeValue(header.value[0x18..0x20]), LeValue(header.value[0x20..0x28]),
                               "section-name string table is out of bounds");
          if strings.Err? then Err(strings.message) else Ok(Table(shoff, entsize, shnum, strings.value))
  }

  function FindFrom(elf: Text, t: Table, wanted: Text, index: nat): Result<Text>
    requires t.entsize >= SHENTSIZE
    decreases t.shnum - index
  {
    if index >= t.shnum then Err("ELF section is missing")
    else
      var header := HeaderAt(elf, t.shoff, t.entsize, index);
      if header.Err? then header
      else
        var name := NameAt(t.strings, LeValue(header.value[0..4]));
        if name.Err? then name
        else if name.value == wanted then Payload(elf, header.value)
        else FindFrom(elf, t, wanted, index + 1)
  }

  function Section(elf: Text, wanted: Text): Result<Text> {
    var t := ReadTable(elf);
    if t.Err? then Err(t.message) else FindFrom(elf, t.value, wanted, 0)
  }

  /** elf64_section: the loop over the headers. */
  method Elf64Section(elf: Text, wanted: Text) returns (r: Result<Text>)
    ensures r == Section(elf, wanted)
  {
    hide ReadTable, HeaderAt, NameAt, Payload;
    var table := ReadTable(elf);
    if table.Err? {
      return Err(table.message);
    }
    var t := table.value;
    for index := 0 to t.shnum
      invariant Section(elf, wanted) == FindFrom(elf, t, wanted, index)
    {
      var header := HeaderAt(elf, t.shoff, t.entsize, index);
      if header.Err? {
        return header;
      }
      var name := NameAt(t.strings, LeValue(header.value[0..4]));
      if name.Err? {
        return name;
      }
      if name.value == wanted {
        return Payload(elf, header.value);
      }
    }
    return Err("ELF section is missing");
  }

  // ------------------------------------------------------------------ vermagic

  // "vermagic="
  const VERMAGIC: Text := [0x76, 0x65, 0x72, 0x6D, 0x61, 0x67, 0x69, 0x63, 0x3D]

  function VermagicFromModinfo(blob: Text): Option<Text>
    decreases |blob|
  {
    var entry := UntilNul(blob);
    if !ValidUtf8(entry) then None
    else if VERMAGIC < entry then Some(entry[|VERMAGIC|..])
    else if |entry| == |blob| then None
    else VermagicFromModinfo(blob[|entry| + 1..])
  }

  function VermagicFromElf(elf: Text): Result<Text> {
    var modinfo := Section(elf, MODINFO);
    if modinfo.Err? then modinfo
    else
      var v := VermagicFromModinfo(modinfo.value);
      if v.None? then Err("ELF .modinfo has no vermagic=") else Ok(v.value)
  }

  // ---------------------------------------------------------------- round trip

  lemma FileHeaderFields(h: Text)
    requires h == FileIdent() + FileTable()
    ensures |h| == EHSIZE && h[0..4] == MAGIC && h[4] == 2 && h[5] == 1
    ensures h[0x28..0x30] == Le(EHSIZE, 8) && h[0x3a..0x3c] == Le(SHENTSIZE, 2)
    ensures h[0x3c..0x3e] == Le(SHNUM, 2) && h[0x3e..0x40] == Le(2, 2)
  {
    hide Le, Zeros;
  }

  lemma SectionHeaderFields(name: nat, kind: nat, offset: nat, size: nat)
    ensures var h := SectionHeader(name, kind, offset, size);
            h[0..4] == Le(name, 4) && h[0x18..0x20] == Le(offset, 8) && h[0x20..0x28] == Le(size, 8)
  {
    hide Le, Zeros;
  }

  lemma Layout(m: Text)
    ensures var e := ElfOf(m);
            && |e| == HEADERS + STRTAB_SIZE + |m|
            && e[..64] == FileIdent() + FileTable() && e[64..128] == Zeros(SHENTSIZE)
            && e[128..192] == SectionHeader(1, 1, HEADERS + STRTAB_SIZE, |m|)
            && e[192..256] == SectionHeader(10, 3, HEADERS, STRTAB_SIZE)
            && e[256..276] == STRTAB && e[276..] == m
  {
    hide FileIdent, FileTable, Zeros, SectionHeader;
  }

  lemma Widths()
    ensures Pow256(2) == 0x1_0000 && Pow256(4) == 0x1_0000_0000 && Pow256(8) == USIZE
  {
    assert Pow256(3) == 0x100_0000 && Pow256(5) == 0x100_0000_0000 && Pow256(6) == 0x1_0000_0000_0000;
    assert Pow256(7) == 0x100_0000_0000_0000;
  }

  lemma FileHeaderValues(h: Text)
    requires h == FileIdent() + FileTable()
    ensures |h| == EHSIZE && LeValue(h[0x28..0x30]) == EHSIZE && LeValue(h[0x3a..0x3c]) == SHENTSIZE
    ensures LeValue(h[0x3c..0x3e]) == SHNUM && LeValue(h[0x3e..0x40]) == 2
  {
    hide LeValue, Le, FileIdent, FileTable;
    FileHeaderFields(h);
    Widths();
    LeRoundTrip(EHSIZE, 8);
    LeRoundTrip(SHENTSIZE, 2);
    LeRoundTrip(SHNUM, 2);
    LeRoundTrip(2, 2);
  }

  lemma FileHeaderRead(m: Text)
    ensures var e := ElfOf(m);
            && |e| >= 64 && e[0..4] == MAGIC && e[4] == 2 && e[5] == 1
            && LeValue(e[0x28..0x30]) == EHSIZE && LeValue(e[0x3a..0x3c]) == SHENTSIZE
            && LeValue(e[0x3c..0x3e]) == SHNUM && LeValue(e[0x3e..0x40]) == 2
  {
    hide ElfOf, LeValue, FileIdent, FileTable;
    var e := ElfOf(m);
    Layout(m);
    var h := e[..64];
    FileHeaderFields(h);
    FileHeaderValues(h);
    assert e[0..4] == h[0..4] && e[0x28..0x30] == h[0x28..0x30] && e[0x3a..0x3c] == h[0x3a..0x3c];
    assert e[0x3c..0x3e] == h[0x3c..0x3e] && e[0x3e..0x40] == h[0x3e..0x40];
  }

  lemma SectionHeaderRead(name: nat, kind: nat, offset: nat, size: nat)
    requires name < Pow256(4) && offset < Pow256(8) && size < Pow256(8)
    ensures var h := SectionHeader(name, kind, offset, size);
            LeValue(h[0..4]) == name && LeValue(h[0x18..0x20]) == offset && LeValue(h[0x20..0x28]) == size
  {
    SectionHeaderFields(name, kind, offset, size);
    LeRoundTrip(name, 4);
    LeRoundTrip(offset, 8);
    LeRoundTrip(size, 8);
    hide SectionHeader;
  }

  lemma TableRead(m: Text)
    ensures ReadTable(ElfOf(m)) == Ok(Table(EHSIZE, SHENTSIZE, SHNUM, STRTAB))
  {
    var e := ElfOf(m);
    Layout(m);
    FileHeaderRead(m);
    Widths();
    SectionHeaderRead(10, 3, HEADERS, STRTAB_SIZE);
    hide ElfOf, LeValue, SectionHeader, FileIdent, FileTable, Pow256, STRTAB;
    assert HeaderAt(e, EHSIZE, SHENTSIZE, 2) == Ok(e[192..256]);
    assert e[256..276] == STRTAB;
  }

  lemma SectionNames()
    ensures NameAt(STRTAB, 0) == Ok([]) && NameAt(STRTAB, 1) == Ok(MODINFO) && MODINFO != []
  {
    assert STRTAB[0..] == STRTAB;
    NameIs(STRTAB[1..], MODINFO);
    assert ValidUtf8([]);
    var n := MODINFO;
    assert n[0] < 128 && n[1] < 128 && n[2] < 128 && n[3] < 128 && n[4] < 128 && n[5] < 128 && n[6] < 128 && n[7] < 128;
    assert |n| == 8;
    AsciiIsValid(n);
  }

  lemma {:induction false} NameIs(b: Text, name: Text)
    requires |name| < |b| && b[..|name|] == name && b[|name|] == 0 && 0 !in name
    ensures UntilNul(b) == name
    decreases |name|
  {
    if name != [] {
      assert b[0] == name[0] && name == [name[0]] + name[1..];
      assert b[1..][..|name| - 1] == b[..|name|][1..];
      NameIs(b[1..], name[1..]);
    }
  }

  lemma {:induction false} AsciiIsValid(s: Text)
    requires forall i :: 0 <= i < |s| ==> s[i] < 0x80
    ensures ValidUtf8(s)
  {
    if s != [] {
      AsciiIsValid(s[1..]);
    }
  }

  lemma FirstHeader(m: Text)
    ensures HeaderAt(ElfOf(m), EHSIZE, SHENTSIZE, 0) == Ok(Zeros(SHENTSIZE))
    ensures LeValue(Zeros(SHENTSIZE)[0..4]) == 0
  {
    Layout(m);
    ZeroName();
    hide ElfOf, LeValue;
  }

  lemma SecondHeader(m: Text)
    requires HEADERS + STRTAB_SIZE + |m| < USIZE
    ensures var h := SectionHeader(1, 1, HEADERS + STRTAB_SIZE, |m|);
            HeaderAt(ElfOf(m), EHSIZE, SHENTSIZE, 1) == Ok(h) && LeValue(h[0..4]) == 1 && Payload(ElfOf(m), h) == Ok(m)
  {
    var e := ElfOf(m);
    Layout(m);
    Widths();
    SectionHeaderRead(1, 1, HEADERS + STRTAB_SIZE, |m|);
    hide ElfOf, LeValue, SectionHeader, Pow256;
    assert e[276..276 + |m|] == e[276..];
  }

  /** Reading .modinfo out of the written file gives back exactly the blob, whatever
      it holds. */
  lemma ElfRoundTrip(m: Text)
    requires HEADERS + STRTAB_SIZE + |m| < USIZE
    ensures Section(ElfOf(m), MODINFO) == Ok(m)
  {
    var e := ElfOf(m);
    var t := Table(EHSIZE, SHENTSIZE, SHNUM, STRTAB);
    TableRead(m);
    SectionNames();
    FirstHeader(m);
    SecondHeader(m);
    hide ElfOf, LeValue, HeaderAt, SectionHeader, Payload, NameAt, ReadTable, Zeros, MODINFO, STRTAB;
    assert FindFrom(e, t, MODINFO, 1) == Ok(m);
    assert FindFrom(e, t, MODINFO, 0) == FindFrom(e, t, MODINFO, 1);
  }

  lemma ZeroName()
    ensures LeValue(Zeros(SHENTSIZE)[0..4]) == 0
  {
    assert Zeros(SHENTSIZE)[0..4] == [0] + ([0] + ([0] + ([0] + [])));
    assert LeValue([0] + []) == 0;
    assert LeValue([0] + ([0] + [])) == 0;
    assert LeValue([0] + ([0] + ([0] + []))) == 0;
  }

  /** So vermagic read through the file is vermagic read from the blob. */
  lemma VermagicThroughElf(m: Text)
    requires HEADERS + STRTAB_SIZE + |m| < USIZE
    ensures VermagicFromElf(ElfOf(m)) ==
              if VermagicFromModinfo(m).Some? then Ok(VermagicFromModinfo(m).value)
              else Err("ELF .modinfo has no vermagic=")
  {
    ElfRoundTrip(m);
    hide Section, ElfOf, VermagicFromModinfo;
  }

  // ------------------------------------------------------------------- records

  function Join(records: seq<Text>): Text
    requires records != []
  {
    if |records| == 1 then records[0] else records[0] + [0] + Join(records[1..])
  }

  ghost predicate Records(records: seq<Text>) {
    records != [] && forall i :: 0 <= i < |records| ==> 0 !in records[i]
  }

  /** Record k names a vermagic, and none before it does or is not UTF-8. */
  ghost predicate NamesFirst(records: seq<Text>, k: nat, v: Text) {
    && k < |records| && records[k] == VERMAGIC + v && v != []
    && (forall i :: 0 <= i <= k ==> ValidUtf8(records[i]))
    && (forall i :: 0 <= i < k ==> !(VERMAGIC < records[i]))
  }

  lemma {:induction false} UntilNulOf(entry: Text, rest: Text)
    requires 0 !in entry && (rest != [] ==> rest[0] == 0)
    ensures UntilNul(entry + rest) == entry
  {
    if entry != [] {
      assert (entry + rest)[1..] == entry[1..] + rest;
      UntilNulOf(entry[1..], rest);
    } else {
      assert entry + rest == rest;
    }
  }

  lemma NamesLater(records: seq<Text>, k: nat, v: Text)
    requires records != [] && ValidUtf8(records[0]) && !(VERMAGIC < records[0])
    ensures NamesFirst(records[1..], k, v) <==> NamesFirst(records, k + 1, v)
    ensures !NamesFirst(records, 0, v)
  {
    hide ValidUtf8;
    var rest := records[1..];
    assert forall i :: 0 <= i < |rest| ==> rest[i] == records[i + 1];
    if NamesFirst(rest, k, v) {
      forall i | 0 <= i <= k + 1 ensures ValidUtf8(records[i]) {
        assert i > 0 ==> records[i] == rest[i - 1];
      }
      forall i | 0 <= i < k + 1 ensures !(VERMAGIC < records[i]) {
        assert i > 0 ==> records[i] == rest[i - 1];
      }
    }
  }

  /** vermagic_from_modinfo finds the value of the first record that names one. */
  lemma {:induction false} VermagicIsFirstNamed(records: seq<Text>, v: Text)
    requires Records(records)
    ensures VermagicFromModinfo(Join(records)) == Some(v) <==> exists k: nat :: NamesFirst(records, k, v)
    decreases |records|
  {
    hide ValidUtf8, UntilNul;
    var entry, blob := records[0], Join(records);
    if |records| == 1 {
      UntilNulOf(entry, []);
      assert entry + [] == entry;
    } else {
      var rest := records[1..];
      UntilNulOf(entry, [0] + Join(rest));
      assert blob == entry + ([0] + Join(rest)) && blob[|entry| + 1..] == Join(rest);
      VermagicIsFirstNamed(rest, v);
    }
    if VERMAGIC < entry {
      assert entry == VERMAGIC + entry[|VERMAGIC|..];
      assert NamesFirst(records, 0, v) <==> ValidUtf8(entry) && v == entry[|VERMAGIC|..];
    }
    if ValidUtf8(entry) && !(VERMAGIC < entry) {
      forall k: nat ensures NamesFirst(records[1..], k, v) <==> NamesFirst(records, k + 1, v) {
        NamesLater(records, k, v);
      }
      NamesLater(records, 0, v);
      assert forall k: nat :: NamesFirst(records, k, v) ==> k > 0 && NamesFirst(records[1..], k - 1, v);
    }
  }
}
