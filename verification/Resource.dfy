/** The compiled resource with the event log's message table (agent-rust/build.rs), and readers that
    follow its size fields. */
module Resource {
  import opened Basics
  import S = Service

  const LOW_ID: nat := 1
  const HIGH_ID: nat := 5
  const RT_MESSAGETABLE: nat := 11
  const LANG_EN_US: nat := 0x0409
  const MESSAGE_RESOURCE_UNICODE: nat := 1
  const NUMERIC: nat := 0xFFFF
  const MOVEABLE_PURE: nat := 0x0030

  // ---------------------------------------------------------------- little-endian numbers

  function Pow256(k: nat): nat {
    if k == 0 then 1 else 256 * Pow256(k - 1)
  }

  /** `to_le_bytes` of a `k`-byte number; higher bytes are cut off, as a narrowing cast does. */
  function Le(n: nat, k: nat): (s: seq<byte>)
    ensures |s| == k
  {
    if k == 0 then [] else [(n % 256) as byte] + Le(n / 256, k - 1)
  }

  function Number(s: seq<byte>): nat {
    if s == [] then 0 else s[0] as nat + 256 * Number(s[1..])
  }

  lemma {:induction false} NumberOfLe(n: nat, k: nat)
    requires n < Pow256(k)
    ensures Number(Le(n, k)) == n
  {
    if k > 0 {
      NumberOfLe(n / 256, k - 1);
      assert Le(n, k)[1..] == Le(n / 256, k - 1);
    }
  }

  lemma Widths()
    ensures Pow256(2) == 0x1_0000 && Pow256(4) == 0x1_0000_0000
  {
    assert Pow256(1) == 256 && Pow256(2) == 256 * 256 && Pow256(3) == 256 * 0x1_0000;
  }

  /** The number in `k` bytes at `pos`, if they are there. */
  function At(s: seq<byte>, pos: nat, k: nat): Option<nat> {
    if pos + k <= |s| then Some(Number(s[pos..pos + k])) else None
  }

  // ---------------------------------------------------------------- what the code does

  function Zeros(n: nat): (s: seq<byte>)
    ensures |s| == n
  {
    if n == 0 then [] else Zeros(n - 1) + [0]
  }

  /** `(n + 3) & !3` */
  function Align4(n: nat): (m: nat)
    ensures n <= m < n + 4 && m % 4 == 0
  {
    (n + 3) / 4 * 4
  }

  /** `Vec<u8>` */
  class ByteVec {
    var bytes: seq<byte>

    constructor ()
      ensures bytes == []
    {
      bytes := [];
    }

    method Extend(more: seq<byte>)
      modifies this
      ensures bytes == old(bytes) + more
    {
      bytes := bytes + more;
    }

    /** `resize(n, 0)` to at least the present length. */
    method Grow(n: nat)
      requires n >= |bytes|
      modifies this
      ensures bytes == old(bytes) + Zeros(n - |old(bytes)|)
    {
      bytes := bytes + Zeros(n - |bytes|);
    }
  }

  function Header(dataSize: nat, typeId: nat, nameId: nat, lang: nat): (s: seq<byte>)
    ensures |s| == 32
  {
    Le(dataSize, 4) + Le(32, 4) + Le(NUMERIC, 2) + Le(typeId, 2) + Le(NUMERIC, 2) + Le(nameId, 2)
    + Le(0, 4) + Le(MOVEABLE_PURE, 2) + Le(lang, 2) + Le(0, 4) + Le(0, 4)
  }

  function ResFile(data: seq<byte>): seq<byte> {
    Header(0, 0, 0, 0) + Header(|data|, RT_MESSAGETABLE, 1, LANG_EN_US) + data + Zeros(Align4(|data|) - |data|)
  }

  method AppendHeader(out: ByteVec, dataSize: nat, typeId: nat, nameId: nat, lang: nat)
    modifies out
    ensures out.bytes == old(out.bytes) + Header(dataSize, typeId, nameId, lang)
  {
    hide Le;
    out.Extend(Le(dataSize, 4));
    out.Extend(Le(32, 4));
    out.Extend(Le(NUMERIC, 2));
    out.Extend(Le(typeId, 2));
    assert out.bytes == old(out.bytes) + (Le(dataSize, 4) + Le(32, 4) + Le(NUMERIC, 2) + Le(typeId, 2));
    out.Extend(Le(NUMERIC, 2));
    out.Extend(Le(nameId, 2));
    out.Extend(Le(0, 4));
    out.Extend(Le(MOVEABLE_PURE, 2));
    assert out.bytes == old(out.bytes) + (Le(dataSize, 4) + Le(32, 4) + Le(NUMERIC, 2) + Le(typeId, 2) + Le(NUMERIC, 2)
                                          + Le(nameId, 2) + Le(0, 4) + Le(MOVEABLE_PURE, 2));
    out.Extend(Le(lang, 2));
    out.Extend(Le(0, 4));
    out.Extend(Le(0, 4));
  }

  method WriteResFile(data: seq<byte>) returns (out: ByteVec)
    ensures fresh(out) && out.bytes == ResFile(data)
  {
    hide Header;
    out := new ByteVec();
    AppendHeader(out, 0, 0, 0, 0);
    assert out.bytes == Header(0, 0, 0, 0);
    out.Grow(32);
    assert out.bytes == Header(0, 0, 0, 0);
    AppendHeader(out, |data|, RT_MESSAGETABLE, 1, LANG_EN_US);
    out.Extend(data);
    assert Align4(|out.bytes|) - |out.bytes| == Align4(|data|) - |data|;
    out.Grow(Align4(|out.bytes|));
  }

  /** The template `%1`, carriage return, line feed, in UTF-16. */
  const TEMPLATE: seq<nat> := [0x25, 0x31, 0x0D, 0x0A]

  function Units(text: seq<nat>): (s: seq<byte>)
    ensures |s| == 2 * |text|
  {
    if text == [] then [] else Le(text[0], 2) + Units(text[1..])
  }

  /** One message: its length, its encoding, the template and a NUL, padded to 4 bytes. */
  function Entry(): seq<byte> {
    Le(16, 2) + Le(MESSAGE_RESOURCE_UNICODE, 2) + Units(TEMPLATE + [0]) + Zeros(2)
  }

  function Entries(n: nat): (s: seq<byte>)
    ensures |s| == 16 * n
  {
    if n == 0 then [] else Entries(n - 1) + Entry()
  }

  function TableHead(): seq<byte> {
    Le(1, 4) + Le(LOW_ID, 4) + Le(HIGH_ID, 4) + Le(16, 4)
  }

  function MessageTable(): seq<byte> {
    TableHead() + Entries(HIGH_ID - LOW_ID + 1)
  }

  lemma NextUnit(text: seq<nat>, i: nat, before: seq<byte>)
    requires i < |text|
    ensures before + Units(text[i..]) == before + Le(text[i], 2) + Units(text[i + 1..])
  {
    hide Le;
    assert text[i..][1..] == text[i + 1..];
  }

  method AppendUnits(out: ByteVec, text: seq<nat>)
    modifies out
    ensures out.bytes == old(out.bytes) + Units(text)
  {
    hide Le, Units;
    var i := 0;
    assert text[0..] == text;
    while i < |text|
      invariant 0 <= i <= |text|
      invariant out.bytes + Units(text[i..]) == old(out.bytes) + Units(text)
    {
      NextUnit(text, i, out.bytes);
      out.Extend(Le(text[i], 2));
      i := i + 1;
    }
  }

  method WriteEntry() returns (entry: ByteVec)
    ensures fresh(entry) && entry.bytes == Entry()
  {
    hide Le, Units;
    var text := TEMPLATE + [0];
    var length := Align4(4 + |text| * 2);
    assert length == 16;
    entry := new ByteVec();
    entry.Extend(Le(length, 2));
    entry.Extend(Le(MESSAGE_RESOURCE_UNICODE, 2));
    AppendUnits(entry, text);
    entry.Grow(length);
  }

  lemma OneMoreEntry(n: nat)
    ensures TableHead() + Entries(n + 1) == TableHead() + Entries(n) + Entry()
  {
    hide TableHead, Entry;
    assert Entries(n + 1) == Entries(n) + Entry();
  }

  method WriteMessageTable() returns (data: ByteVec)
    ensures fresh(data) && data.bytes == MessageTable()
  {
    hide Le, Entry, Entries;
    var entry := WriteEntry();
    data := new ByteVec();
    data.Extend(Le(1, 4));
    data.Extend(Le(LOW_ID, 4));
    data.Extend(Le(HIGH_ID, 4));
    data.Extend(Le(16, 4));
    assert data.bytes == TableHead();
    NoEntries();
    hide TableHead;
    var id := LOW_ID;
    while id <= HIGH_ID
      invariant LOW_ID <= id <= HIGH_ID + 1
      invariant entry.bytes == Entry() && data.bytes == TableHead() + Entries(id - LOW_ID)
    {
      OneMoreEntry(id - LOW_ID);
      data.Extend(entry.bytes);
      id := id + 1;
    }
  }

  lemma NoEntries()
    ensures TableHead() + Entries(0) == TableHead()
  {
  }

  // ---------------------------------------------------------------- reading a .res file back

  /** What a header says besides sizes: numeric type and name, versions, memory flags, language. */
  datatype Info = Info(typeId: nat, nameId: nat, dataVersion: nat, flags: nat, lang: nat, version: nat, characteristics: nat)

  datatype Res = Res(info: Info, data: seq<byte>)

  function InfoAt(s: seq<byte>): Info
    requires |s| >= 32
  {
    Info(At(s, 10, 2).value, At(s, 14, 2).value, At(s, 16, 4).value, At(s, 20, 2).value, At(s, 22, 2).value,
         At(s, 24, 4).value, At(s, 28, 4).value)
  }

  /** The resources in `s`: each header gives its own size and the size of its data, and the next one
      starts at the following multiple of 4. `None` if the bytes are not exactly used up. */
  function ReadRes(s: seq<byte>): Option<seq<Res>>
    decreases |s|
  {
    if s == [] then Some([])
    else
      var dataSize, headerSize := At(s, 0, 4), At(s, 4, 4);
      if dataSize.None? || headerSize.None? || headerSize.value < 32 || headerSize.value > |s| then None
      else if At(s, 8, 2) != Some(0xFFFF) || At(s, 12, 2) != Some(0xFFFF) then None
      else
        var end := headerSize.value + dataSize.value;
        if Align4(end) > |s| then None
        else
          var rest := ReadRes(s[Align4(end)..]);
          if rest.None? then None
          else Some([Res(InfoAt(s), s[headerSize.value..end])] + rest.value)
  }

  /** What the headers that are written say. */
  function HeaderInfo(typeId: nat, nameId: nat, lang: nat): Info {
    Info(typeId, nameId, 0, 0x0030, lang, 0, 0)
  }

  /** The fields of a header are found where the reader looks for them. */
  lemma HeaderFields(size: nat, typeId: nat, nameId: nat, lang: nat, rest: seq<byte>)
    requires typeId < 0x1_0000 && nameId < 0x1_0000 && lang < 0x1_0000
    ensures var s := Header(size, typeId, nameId, lang) + rest;
            && At(s, 0, 4) == Some(Number(Le(size, 4))) && At(s, 4, 4) == Some(32)
            && At(s, 8, 2) == Some(0xFFFF) && At(s, 12, 2) == Some(0xFFFF)
            && InfoAt(s) == HeaderInfo(typeId, nameId, lang)
  {
    Widths();
    var s := Header(size, typeId, nameId, lang) + rest;
    hide Le, Number, Pow256;
    NumberOfLe(32, 4);
    NumberOfLe(0xFFFF, 2);
    NumberOfLe(typeId, 2);
    NumberOfLe(nameId, 2);
    NumberOfLe(0x0030, 2);
    NumberOfLe(0, 4);
    NumberOfLe(lang, 2);
    assert s[0..4] == Le(size, 4) && s[4..8] == Le(32, 4);
    assert s[8..10] == Le(0xFFFF, 2) && s[10..12] == Le(typeId, 2);
    assert s[12..14] == Le(0xFFFF, 2) && s[14..16] == Le(nameId, 2);
    assert s[16..20] == Le(0, 4) && s[20..22] == Le(0x0030, 2) && s[22..24] == Le(lang, 2);
    assert s[24..28] == Le(0, 4) && s[28..32] == Le(0, 4);
  }

  /** A header, data and padding, as they are written. */
  function Block(typeId: nat, nameId: nat, lang: nat, data: seq<byte>): seq<byte> {
    Header(|data|, typeId, nameId, lang) + data + Zeros(Align4(|data|) - |data|)
  }

  /** One step of the reader, given the fields it finds. */
  lemma ReadsStep(s: seq<byte>, size: nat, info: Info)
    requires At(s, 0, 4) == Some(size) && At(s, 4, 4) == Some(32) && |s| >= 32
    requires At(s, 8, 2) == Some(0xFFFF) && At(s, 12, 2) == Some(0xFFFF) && InfoAt(s) == info
    ensures ReadRes(s) ==
              if Align4(32 + size) > |s| || ReadRes(s[Align4(32 + size)..]).None? then None
              else Some([Res(info, s[32..32 + size])] + ReadRes(s[Align4(32 + size)..]).value)
  {
    hide At, Align4, InfoAt;
  }

  /** What the reader makes of a block whose header says `size`. */
  lemma ReadsBlock(typeId: nat, nameId: nat, lang: nat, data: seq<byte>, rest: seq<byte>)
    requires typeId < 0x1_0000 && nameId < 0x1_0000 && lang < 0x1_0000
    ensures var s := Block(typeId, nameId, lang, data) + rest;
            var size := Number(Le(|data|, 4));
            s != [] && ReadRes(s) ==
              if Align4(32 + size) > |s| || ReadRes(s[Align4(32 + size)..]).None? then None
              else Some([Res(HeaderInfo(typeId, nameId, lang), s[32..32 + size])] + ReadRes(s[Align4(32 + size)..]).value)
  {
    hide Header, Le, Number, At, Zeros, ReadRes, Align4, InfoAt;
    var pad := Zeros(Align4(|data|) - |data|);
    var h := Header(|data|, typeId, nameId, lang);
    HeaderFields(|data|, typeId, nameId, lang, data + pad + rest);
    var s := Block(typeId, nameId, lang, data) + rest;
    assert s == h + (data + pad + rest);
    ReadsStep(s, Number(Le(|data|, 4)), HeaderInfo(typeId, nameId, lang));
  }

  lemma BlockParts(typeId: nat, nameId: nat, lang: nat, data: seq<byte>, rest: seq<byte>)
    ensures var s := Block(typeId, nameId, lang, data) + rest;
            var end := Align4(32 + |data|);
            |s| >= end && s[32..32 + |data|] == data && s[end..] == rest && |Block(typeId, nameId, lang, data)| == end
  {
    hide Header, Zeros;
    assert Align4(32 + |data|) == 32 + Align4(|data|);
  }

  /** A block at the head of `s` is read as it was written, if its size fits 32 bits. */
  lemma ReadsResource(typeId: nat, nameId: nat, lang: nat, data: seq<byte>, rest: seq<byte>)
    requires typeId < 0x1_0000 && nameId < 0x1_0000 && lang < 0x1_0000 && |data| < 0x1_0000_0000
    ensures ReadRes(Block(typeId, nameId, lang, data) + rest)
         == (var r := ReadRes(rest); if r.None? then None else Some([Res(HeaderInfo(typeId, nameId, lang), data)] + r.value))
  {
    Widths();
    NumberOfLe(|data|, 4);
    ReadsBlock(typeId, nameId, lang, data, rest);
    BlockParts(typeId, nameId, lang, data, rest);
    hide Block, Le, Number, ReadRes, Pow256;
  }

  /** The size field is the data's length cut to 32 bits. */
  lemma {:induction false} NumberOfCutLe(n: nat, k: nat)
    ensures Number(Le(n, k)) < Pow256(k)
  {
    if k > 0 {
      NumberOfCutLe(n / 256, k - 1);
      assert Le(n, k)[1..] == Le(n / 256, k - 1);
    }
  }

  lemma CutSizeReadsShort(data: seq<byte>)
    requires |data| >= 0x1_0000_0000
    ensures var r := ReadRes(Block(RT_MESSAGETABLE, 1, LANG_EN_US, data));
            r.Some? ==> r.value != [] && r.value[0].data != data
  {
    Widths();
    NumberOfCutLe(|data|, 4);
    ReadsBlock(RT_MESSAGETABLE, 1, LANG_EN_US, data, []);
    hide Block, Le, Number, ReadRes, Pow256;
    var b := Block(RT_MESSAGETABLE, 1, LANG_EN_US, data);
    assert b + [] == b;
  }

  /** A reader of the file gets back exactly the empty resource and one message table (type 11, name 1,
      moveable and pure, English) with the given data, with every byte used, if and only if the data is
      shorter than 2^32 bytes. */
  lemma ResFileReadsBack(data: seq<byte>)
    ensures ReadRes(ResFile(data)) == Some([Res(Info(0, 0, 0, 0x0030, 0, 0, 0), []), Res(Info(11, 1, 0, 0x0030, 0x0409, 0, 0), data)])
       <==> |data| < 0x1_0000_0000
  {
    hide ReadRes, Block, ResFile, Header;
    var second := Block(RT_MESSAGETABLE, 1, LANG_EN_US, data);
    var a, b := Res(HeaderInfo(0, 0, 0), []), Res(HeaderInfo(RT_MESSAGETABLE, 1, LANG_EN_US), data);
    ResFileIsBlocks(data);
    ReadsResource(0, 0, 0, [], second);
    if |data| < 0x1_0000_0000 {
      EmptyReads();
      ReadsResource(RT_MESSAGETABLE, 1, LANG_EN_US, data, []);
      assert second + [] == second;
      assert [b] + [] == [b] && [a] + [b] == [a, b];
    } else {
      CutSizeReadsShort(data);
      var r := ReadRes(second);
      assert r.Some? ==> ([a] + r.value)[1] == r.value[0] != b;
    }
  }

  lemma ResFileIsBlocks(data: seq<byte>)
    ensures ResFile(data) == Block(0, 0, 0, []) + Block(RT_MESSAGETABLE, 1, LANG_EN_US, data)
  {
    hide Header;
    assert Block(0, 0, 0, []) == Header(0, 0, 0, 0);
  }

  /** The file ends at a multiple of 4, with less than 4 bytes of padding, which are zero. */
  lemma PaddingIsZero(data: seq<byte>)
    ensures var s := ResFile(data);
            && |s| % 4 == 0 && 64 + |data| <= |s| < 64 + |data| + 4
            && forall i :: 64 + |data| <= i < |s| ==> s[i] == 0
  {
    var head := Header(0, 0, 0, 0) + Header(|data|, RT_MESSAGETABLE, 1, LANG_EN_US) + data;
    EndsInZeros(head, Align4(|data|) - |data|);
    hide Header, Zeros;
  }

  lemma EndsInZeros(head: seq<byte>, n: nat)
    ensures var s := head + Zeros(n); |s| == |head| + n && forall i :: |head| <= i < |s| ==> s[i] == 0
  {
    ZerosAreZero(n);
    hide Zeros;
    assert forall i :: 0 <= i < n ==> (head + Zeros(n))[|head| + i] == Zeros(n)[i];
    assert forall i :: |head| <= i < |head| + n ==> (head + Zeros(n))[i] == Zeros(n)[i - |head|];
  }

  lemma {:induction false} ZerosAreZero(n: nat)
    ensures forall i :: 0 <= i < n ==> Zeros(n)[i] == 0
  {
    if n > 0 {
      ZerosAreZero(n - 1);
    }
  }

  lemma EmptyReads()
    ensures ReadRes([]) == Some([])
  {
  }

  // ---------------------------------------------------------------- looking up a message

  /** Skip `n` entries by their length fields. */
  function Skip(table: seq<byte>, pos: nat, n: nat): Option<nat>
    decreases n
  {
    if n == 0 then Some(pos)
    else
      var length := At(table, pos, 2);
      if length.None? then None else Skip(table, pos + length.value, n - 1)
  }

  /** The UTF-16 units from `pos` up to a NUL. */
  function Text(table: seq<byte>, pos: nat): Option<seq<nat>>
    decreases |table| - pos
  {
    var unit := At(table, pos, 2);
    if unit.None? then None
    else if unit.value == 0 then Some([])
    else
      var rest := Text(table, pos + 2);
      if rest.None? then None else Some([unit.value] + rest.value)
  }

  /** Look an ID up in a table of one block, as the event log does: the block's range, its offset,
      then entry by entry. */
  function FindMessage(table: seq<byte>, id: nat): Option<seq<nat>> {
    var blocks, low, high, offset := At(table, 0, 4), At(table, 4, 4), At(table, 8, 4), At(table, 12, 4);
    if blocks != Some(1) || low.None? || high.None? || offset.None? then None
    else if id < low.value || id > high.value then None
    else
      var pos := Skip(table, offset.value, id - low.value);
      if pos.None? || At(table, pos.value + 2, 2) != Some(1) then None
      else Text(table, pos.value + 4)
  }

  lemma {:induction false} EntriesSplit(n: nat, k: nat)
    requires k < n
    ensures Entries(n) == Entries(k) + Entry() + Entries(n - 1 - k)
  {
    hide Entry;
    if k == n - 1 {
      assert Entries(0) == [];
    } else {
      EntriesSplit(n - 1, k);
      assert Entries(n) == Entries(n - 1) + Entry() && Entries(n - 1 - k) == Entries(n - 2 - k) + Entry();
      hide Entries;
      Regroup(Entries(k) + Entry(), Entries(n - 2 - k), Entry());
    }
  }

  lemma Regroup(a: seq<byte>, b: seq<byte>, c: seq<byte>)
    ensures a + b + c == a + (b + c)
  {
  }

  /** What an entry says, wherever it stands. */
  lemma EntryReads(before: seq<byte>, after: seq<byte>)
    ensures var s, p := before + Entry() + after, |before|;
            && At(s, p, 2) == Some(16) && At(s, p + 2, 2) == Some(MESSAGE_RESOURCE_UNICODE)
            && At(s, p + 4, 2) == Some(0x25) && At(s, p + 6, 2) == Some(0x31)
            && At(s, p + 8, 2) == Some(0x0D) && At(s, p + 10, 2) == Some(0x0A) && At(s, p + 12, 2) == Some(0)
  {
    var s, p := before + Entry() + after, |before|;
    EntryBytes();
    Widths();
    hide Entry, Le, Number, Pow256;
    assert s[p..p + 16] == Entry();
    NumberOfLe(16, 2);
    NumberOfLe(MESSAGE_RESOURCE_UNICODE, 2);
    NumberOfLe(0x25, 2);
    NumberOfLe(0x31, 2);
    NumberOfLe(0x0D, 2);
    NumberOfLe(0x0A, 2);
    NumberOfLe(0, 2);
    assert s[p..p + 2] == Entry()[0..2];
    assert s[p + 2..p + 4] == Entry()[2..4];
    assert s[p + 4..p + 6] == Entry()[4..6];
    assert s[p + 6..p + 8] == Entry()[6..8];
    assert s[p + 8..p + 10] == Entry()[8..10];
    assert s[p + 10..p + 12] == Entry()[10..12];
    assert s[p + 12..p + 14] == Entry()[12..14];
  }

  lemma EntryBytes()
    ensures var e := Entry();
            && |e| == 16 && e[0..2] == Le(16, 2) && e[2..4] == Le(MESSAGE_RESOURCE_UNICODE, 2)
            && e[4..6] == Le(0x25, 2) && e[6..8] == Le(0x31, 2) && e[8..10] == Le(0x0D, 2)
            && e[10..12] == Le(0x0A, 2) && e[12..14] == Le(0, 2)
  {
    hide Le;
    var t5 := TEMPLATE + [0];
    var t4, t3, t2, t1 := t5[1..], t5[2..], t5[3..], t5[4..];
    assert t4[1..] == t3 && t3[1..] == t2 && t2[1..] == t1 && t1[1..] == [];
    var u1 := Le(0, 2);
    var u2, u3 := Le(0x0A, 2) + u1, Le(0x0D, 2) + (Le(0x0A, 2) + u1);
    assert Units(t1) == u1;
    assert Units(t2) == u2;
    assert Units(t3) == u3;
    assert Units(t4) == Le(0x31, 2) + u3;
    assert Units(t5) == Le(0x25, 2) + (Le(0x31, 2) + u3);
    EntryFields(Le(16, 2), Le(MESSAGE_RESOURCE_UNICODE, 2), Le(0x25, 2), Le(0x31, 2), Le(0x0D, 2), Le(0x0A, 2), u1, Zeros(2));
    hide Units, Zeros;
  }

  lemma Middle(x: seq<byte>, y: seq<byte>, z: seq<byte>)
    ensures (x + y + z)[|x|..|x| + |y|] == y
  {
  }

  lemma EntryFields(a: seq<byte>, b: seq<byte>, c: seq<byte>, d: seq<byte>, e: seq<byte>, f: seq<byte>, g: seq<byte>, z: seq<byte>)
    requires |a| == |b| == |c| == |d| == |e| == |f| == |g| == |z| == 2
    ensures var s := a + b + (c + (d + (e + (f + g)))) + z;
            && |s| == 16 && s[0..2] == a && s[2..4] == b && s[4..6] == c && s[6..8] == d && s[8..10] == e
            && s[10..12] == f && s[12..14] == g
  {
    var s := a + b + (c + (d + (e + (f + g)))) + z;
    assert s == [] + a + (b + (c + (d + (e + (f + (g + z))))));
    Middle([], a, b + (c + (d + (e + (f + (g + z))))));
    assert s == a + b + (c + (d + (e + (f + (g + z)))));
    Middle(a, b, c + (d + (e + (f + (g + z)))));
    assert s == (a + b) + c + (d + (e + (f + (g + z))));
    Middle(a + b, c, d + (e + (f + (g + z))));
    assert s == (a + b + c) + d + (e + (f + (g + z)));
    Middle(a + b + c, d, e + (f + (g + z)));
    assert s == (a + b + c + d) + e + (f + (g + z));
    Middle(a + b + c + d, e, f + (g + z));
    assert s == (a + b + c + d + e) + f + (g + z);
    Middle(a + b + c + d + e, f, g + z);
    assert s == (a + b + c + d + e + f) + g + z;
    Middle(a + b + c + d + e + f, g, z);
  }

  /** Entry `k` of a table whose entries start at 16. */
  lemma TableEntry(k: nat)
    requires k <= HIGH_ID - LOW_ID
    ensures var s, p := MessageTable(), 16 + 16 * k;
            && At(s, p, 2) == Some(16) && At(s, p + 2, 2) == Some(MESSAGE_RESOURCE_UNICODE)
            && Text(s, p + 4) == Some(TEMPLATE)
  {
    hide Entries, Entry, TableHead, At, Text;
    var n := HIGH_ID - LOW_ID + 1;
    EntriesSplit(n, k);
    var s, p := MessageTable(), 16 + 16 * k;
    var before, after := TableHead() + Entries(k), Entries(n - 1 - k);
    assert s == before + Entry() + after;
    TableHeadLength();
    assert |before| == p;
    EntryReads(before, after);
    TextReads(s, p + 4);
  }

  lemma TextReads(s: seq<byte>, p: nat)
    requires At(s, p, 2) == Some(0x25) && At(s, p + 2, 2) == Some(0x31) && At(s, p + 4, 2) == Some(0x0D)
    requires At(s, p + 6, 2) == Some(0x0A) && At(s, p + 8, 2) == Some(0)
    ensures Text(s, p) == Some(TEMPLATE)
  {
    hide Number;
    assert p + 10 <= |s|;
    var t4: seq<nat> := [];
    var t3: seq<nat>, t2: seq<nat>, t1: seq<nat> := [0x0A], [0x0D, 0x0A], [0x31, 0x0D, 0x0A];
    assert [0x0A] + t4 == t3 && [0x0D] + t3 == t2 && [0x31] + t2 == t1 && [0x25] + t1 == TEMPLATE;
    assert Text(s, p + 8) == Some(t4);
    assert Text(s, p + 6) == Some(t3);
    assert Text(s, p + 4) == Some(t2);
    assert Text(s, p + 2) == Some(t1);
  }

  lemma TableHeadLength()
    ensures |TableHead()| == 16
  {
  }

  lemma {:induction false} SkipEntries(k: nat, n: nat)
    requires k + n <= HIGH_ID - LOW_ID
    ensures Skip(MessageTable(), 16 + 16 * k, n) == Some(16 + 16 * (k + n))
    decreases n
  {
    hide MessageTable, At;
    if n > 0 {
      TableEntry(k);
      SkipEntries(k + 1, n - 1);
    }
  }

  lemma TableFields()
    ensures var s := MessageTable();
            At(s, 0, 4) == Some(1) && At(s, 4, 4) == Some(LOW_ID) && At(s, 8, 4) == Some(HIGH_ID) && At(s, 12, 4) == Some(16)
  {
    Widths();
    NumberOfLe(1, 4);
    NumberOfLe(5, 4);
    NumberOfLe(16, 4);
    hide Le, Number, Pow256, Entries, Entry;
    var s, rest := MessageTable(), Entries(HIGH_ID - LOW_ID + 1);
    var a, b, c, d := Le(1, 4), Le(LOW_ID, 4), Le(HIGH_ID, 4), Le(16, 4);
    assert s == a + b + c + d + rest;
    hide MessageTable, TableHead;
    FourFields(a, b, c, d, rest);
  }

  lemma FourFields(a: seq<byte>, b: seq<byte>, c: seq<byte>, d: seq<byte>, rest: seq<byte>)
    requires |a| == |b| == |c| == |d| == 4
    ensures var s := a + b + c + d + rest;
            s[0..4] == a && s[4..8] == b && s[8..12] == c && s[12..16] == d
  {
  }

  /** In the table that is built every ID from 1 to 5 resolves to the template, the first insertion string
      and a line end, and no other ID resolves to anything. */
  lemma EveryIdResolves(id: nat)
    ensures FindMessage(MessageTable(), id) == if 1 <= id <= 5 then Some([0x25, 0x31, 0x0D, 0x0A]) else None
  {
    hide MessageTable, At, Skip, Text;
    TableFields();
    if LOW_ID <= id <= HIGH_ID {
      SkipEntries(0, id - LOW_ID);
      TableEntry(id - LOW_ID);
    }
  }

  /** So every event that the service reports has its text. */
  lemma EveryEventResolves(e: S.Ending)
    ensures FindMessage(MessageTable(), S.EventOf(e)) == FindMessage(MessageTable(), S.EVENT_STARTED) == Some([0x25, 0x31, 0x0D, 0x0A])
  {
    EveryIdResolves(S.EventOf(e));
    EveryIdResolves(S.EVENT_STARTED);
    hide MessageTable, FindMessage;
  }

  /** Entries are padded with zeros to the length they give. */
  lemma EntriesPadded(k: nat)
    requires k < 5
    ensures var s := MessageTable();
            |s| == 96 && At(s, 16 + 16 * k, 2) == Some(16) && s[16 + 16 * k + 14] == 0 && s[16 + 16 * k + 15] == 0
  {
    hide Entries, Entry, TableHead, At, Text, MessageTable;
    TableEntry(k);
    EntryEnds();
    var before, after := TableCut(k);
    EndOf(before, Entry(), after);
  }

  lemma TableCut(k: nat) returns (before: seq<byte>, after: seq<byte>)
    requires k < 5
    ensures MessageTable() == before + Entry() + after && |before| == 16 + 16 * k && |MessageTable()| == 96
  {
    EntriesSplit(5, k);
    TableHeadLength();
    hide Entries, Entry, TableHead;
    before, after := TableHead() + Entries(k), Entries(4 - k);
    assert MessageTable() == TableHead() + Entries(5);
    hide MessageTable;
    InFront(TableHead(), Entries(k), Entry(), after);
  }

  lemma InFront(h: seq<byte>, a: seq<byte>, b: seq<byte>, c: seq<byte>)
    ensures h + (a + b + c) == h + a + b + c
  {
  }

  lemma EndOf(before: seq<byte>, entry: seq<byte>, after: seq<byte>)
    requires |entry| == 16
    ensures var s := before + entry + after; s[|before| + 14] == entry[14] && s[|before| + 15] == entry[15]
  {
  }

  lemma EntryEnds()
    ensures |Entry()| == 16 && Entry()[14] == 0 && Entry()[15] == 0
  {
    hide Le;
  }
}
