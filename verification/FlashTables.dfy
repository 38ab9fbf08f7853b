/**
 What a partition table is, byte by byte, and that the build and the inspector accept exactly such
 tables; and what a set of components is.
 */
module FlashTables {
  import opened Wrappers
  import opened Bytes
  import opened Flash
  import opened EspImages
  import B = FullImage
  import I = FlashInspector

  // ----- Entries -----

  /** The bytes of an entry: magic, type, subtype, offset, size, label up to the first NUL, flags. */
  ghost predicate IsEntry(raw: seq<byte>, p: Partition) {
    && |raw| == 32 && raw[0] == 0xAA && raw[1] == 0x50 && raw[2] == p.kind && raw[3] == p.subtype
    && p.offset <= UNDEFINED && raw[4..8] == Le32(p.offset) && p.size <= UNDEFINED && raw[8..12] == Le32(p.size)
    && p.flags <= UNDEFINED && raw[28..32] == Le32(p.flags)
    && IsLabel(raw[12..28], p.name)
  }

  ghost predicate IsLabel(field: seq<byte>, name: string) {
    && |name| <= |field| && (|name| < |field| ==> field[|name|] == 0)
    && forall i :: 0 <= i < |name| ==> field[i] != 0 && field[i] < 128 && field[i] as char == name[i]
  }

  lemma {:induction false} LabelIs(field: seq<byte>)
    ensures var s := UpToZero(field);
      |s| <= |field| && (|s| < |field| ==> field[|s|] == 0)
      && forall i :: 0 <= i < |s| ==> s[i] == field[i] && s[i] != 0
  {
    if field != [] && field[0] != 0 { LabelIs(field[1..]); }
  }

  lemma LabelIff(field: seq<byte>, name: string)
    ensures IsLabel(field, name) <==> IsAscii(UpToZero(field)) && Decode(UpToZero(field)) == name
  {
    LabelIs(field);
    var s := UpToZero(field);
    if IsLabel(field, name) {
      assert |s| == |name| by { SameEnd(field, |s|, |name|); }
    }
  }

  /** Two ends at the first zero are one. */
  lemma SameEnd(field: seq<byte>, a: nat, b: nat)
    requires a <= |field| && b <= |field|
    requires (a < |field| ==> field[a] == 0) && forall i :: 0 <= i < a ==> field[i] != 0
    requires (b < |field| ==> field[b] == 0) && forall i :: 0 <= i < b ==> field[i] != 0
    ensures a == b
  {
  }

  lemma MagicIs(raw: seq<byte>, at: nat)
    requires at + 2 <= |raw|
    ensures U16(raw, at) == PARTITION_MAGIC <==> raw[at] == 0xAA && raw[at + 1] == 0x50
    ensures U16(raw, at) == MD5_MAGIC <==> raw[at] == 0xEB && raw[at + 1] == 0xEB
    ensures U16(raw, at) == 0xFFFF <==> raw[at] == 0xFF && raw[at + 1] == 0xFF
  {
  }

  /** An entry is read as this partition exactly if it is one of it. */
  lemma EntryIff(raw: seq<byte>, p: Partition)
    requires |raw| == 32
    ensures IsEntry(raw, p) <==>
      U16(raw, 0) == PARTITION_MAGIC && IsAscii(LabelBytes(raw)) && ParseEntry(raw) == p
  {
    hide U32, U16, Le32, UpToZero, Decode, IsAscii, IsLabel;
    MagicIs(raw, 0);
    LabelIff(raw[12..28], p.name);
    WordIff(raw, 4, p.offset);
    WordIff(raw, 8, p.size);
    WordIff(raw, 28, p.flags);
  }

  lemma WordIff(raw: seq<byte>, at: nat, n: nat)
    requires at + 4 <= |raw|
    ensures n <= UNDEFINED && raw[at..at + 4] == Le32(n) <==> U32(raw, at) == n
  {
    hide U32, Le32;
    WordFromBytes(raw, at);
    if n <= UNDEFINED && raw[at..at + 4] == Le32(n) { WordInside(raw, at, n); }
  }

  // ----- The table of the build -----

  /** Entry after entry, an MD5 trailer over them, and erased flash. */
  ghost predicate IsTable(data: seq<byte>, ps: seq<Partition>, h: Hashes) {
    var at := |ps| * 32;
    && |data| == 0xC00 && at + 32 <= 0xC00
    && (forall k :: 0 <= k < |ps| ==> IsEntry(B.RawEntry(data, k), ps[k]))
    && data[at] == 0xEB && data[at + 1] == 0xEB && IsErased(data[at + 2..at + 16])
    && data[at + 16..at + 32] == h.md5(data[..at]) && IsErased(data[at + 32..])
  }

  lemma {:induction false} EntriesAre(data: seq<byte>, ps: seq<Partition>, n: nat)
    requires n <= |ps| && n * ENTRY_SIZE <= |data|
    ensures B.Entries(data, n) == Ok(ps[..n]) <==> forall k :: 0 <= k < n ==> IsEntry(B.RawEntry(data, k), ps[k])
  {
    hide IsEntry, ParseEntry, LabelBytes, IsAscii, U16;
    if n > 0 {
      EntriesAre(data, ps, n - 1);
      EntryIff(B.RawEntry(data, n - 1), ps[n - 1]);
      assert ps[..n] == ps[..n - 1] + [ps[n - 1]];
      if B.Entries(data, n) == Ok(ps[..n]) {
        var before := B.Entries(data, n - 1).value;
        assert before + [ParseEntry(B.RawEntry(data, n - 1))] == ps[..n - 1] + [ps[n - 1]];
        SameParts(before, ps[..n - 1], ParseEntry(B.RawEntry(data, n - 1)), ps[n - 1]);
      }
    }
  }

  lemma SameParts<T>(a: seq<T>, b: seq<T>, x: T, y: T)
    requires a + [x] == b + [y]
    ensures a == b && x == y
  {
    assert |a| == |b|;
    assert (a + [x])[..|a|] == a && (b + [y])[..|b|] == b;
    assert (a + [x])[|a|] == x && (b + [y])[|b|] == y;
  }

  lemma ErasedIs(b: seq<byte>)
    ensures b == Erased(|b|) <==> IsErased(b)
  {
  }

  /** The build accepts exactly these tables. */
  lemma BuildTableIff(data: seq<byte>, ps: seq<Partition>, h: Hashes)
    ensures B.ValidatePartitionBinary(data, ps, h).Ok? <==> IsTable(data, ps, h)
  {
    hide B.Entries, IsEntry, U16;
    if |data| == PARTITION_TABLE_SIZE && |ps| * ENTRY_SIZE + 32 <= |data| {
      var at := |ps| * ENTRY_SIZE;
      EntriesAre(data, ps, |ps|);
      assert ps[..|ps|] == ps;
      MagicIs(data, at);
      ErasedIs(data[at + 2..at + 16]);
      ErasedIs(data[at + 32..]);
    }
  }

  // ----- The table of the inspector -----

  /** The inspector takes labels of other bytes too, each for a replacement character. */
  ghost predicate IsLooseEntry(raw: seq<byte>, p: Partition) {
    |raw| == 32 && raw[0] == 0xAA && raw[1] == 0x50 && ParseEntry(raw) == p
  }

  ghost predicate EntryAt(image: seq<byte>, offset: nat, p: Partition) {
    offset < I.TABLE_END && offset + 32 <= |image| && IsLooseEntry(image[offset..offset + 32], p)
  }

  /** The table or the image ends, or there is erased flash or a trailer. */
  predicate EndsAt(image: seq<byte>, at: nat) {
    || at >= I.TABLE_END || at + 32 > |image|
    || (image[at] == 0xFF && image[at + 1] == 0xFF) || (image[at] == 0xEB && image[at + 1] == 0xEB)
  }

  /** Entries from an offset on, and then an end. */
  ghost predicate HasEntries(image: seq<byte>, offset: nat, ps: seq<Partition>) {
    && (forall k :: 0 <= k < |ps| ==> EntryAt(image, offset + k * 32, ps[k]))
    && EndsAt(image, offset + |ps| * 32)
  }

  lemma FirstEntry(image: seq<byte>, offset: nat, p: Partition, ps: seq<Partition>)
    ensures HasEntries(image, offset, [p] + ps) <==> EntryAt(image, offset, p) && HasEntries(image, offset + 32, ps)
  {
    hide EntryAt, EndsAt;
    var all := [p] + ps;
    assert offset + |all| * 32 == offset + 32 + |ps| * 32;
    if HasEntries(image, offset, all) {
      assert EntryAt(image, offset + 0 * 32, all[0]);
      forall k | 0 <= k < |ps| ensures EntryAt(image, offset + 32 + k * 32, ps[k]) {
        assert EntryAt(image, offset + (k + 1) * 32, all[k + 1]);
      }
    }
    if EntryAt(image, offset, p) && HasEntries(image, offset + 32, ps) {
      forall k | 0 <= k < |all| ensures EntryAt(image, offset + k * 32, all[k]) {
        if k > 0 { assert EntryAt(image, offset + 32 + (k - 1) * 32, ps[k - 1]); }
      }
    }
  }

  lemma NoEntries(image: seq<byte>, offset: nat)
    ensures HasEntries(image, offset, []) <==> EndsAt(image, offset)
  {
  }

  lemma EndHasNoEntry(image: seq<byte>, offset: nat, p: Partition)
    ensures EndsAt(image, offset) ==> !EntryAt(image, offset, p)
  {
  }

  /** The inspector reads exactly these partitions. */
  lemma {:induction false} EntriesFromIff(image: seq<byte>, offset: nat, ps: seq<Partition>)
    ensures I.EntriesFrom(image, offset) == Ok(ps) <==> HasEntries(image, offset, ps)
    decreases I.TABLE_END - offset
  {
    hide ParseEntry, HasEntries;
    if ps == [] {
      NoEntries(image, offset);
    } else {
      assert ps == [ps[0]] + ps[1..];
      FirstEntry(image, offset, ps[0], ps[1..]);
      EndHasNoEntry(image, offset, ps[0]);
    }
    if offset < I.TABLE_END && offset + 32 <= |image| {
      var raw := image[offset..offset + 32];
      MagicIs(raw, 0);
      if ps != [] { EntriesFromIff(image, offset + 32, ps[1..]); }
      if I.EntriesFrom(image, offset).Ok? && !EndsAt(image, offset) {
        var rest := I.EntriesFrom(image, offset + 32).value;
        assert ([ParseEntry(raw)] + rest)[1..] == rest && ([ParseEntry(raw)] + rest)[0] == ParseEntry(raw);
      }
    }
  }

  /** A table without entries is refused. */
  lemma PartitionsIff(image: seq<byte>, ps: seq<Partition>)
    ensures I.Partitions(image) == Ok(ps) <==> ps != [] && HasEntries(image, 0x8000, ps)
  {
    EntriesFromIff(image, 0x8000, ps);
  }

  predicate HasMagic(table: seq<byte>, at: nat) {
    at + 2 <= |table| && table[at] == 0xAA && table[at + 1] == 0x50
  }

  /** A trailer behind `n` entries. */
  ghost predicate TrailerAfter(table: seq<byte>, from: nat, n: nat) {
    var at := from + 32 * n;
    && at + 2 <= |table| && table[at] == 0xEB && table[at + 1] == 0xEB
    && forall k :: 0 <= k < n ==> HasMagic(table, from + 32 * k)
  }

  lemma {:induction false} TrailerIff(table: seq<byte>, from: nat, n: nat)
    ensures I.TrailerFrom(table, from) == Ok(from + 32 * n) <==> TrailerAfter(table, from, n)
    decreases |table| - from
  {
    if from + 2 <= |table| {
      MagicIs(table, from);
      if HasMagic(table, from) {
        if n > 0 {
          TrailerIff(table, from + 32, n - 1);
          LaterTrailer(table, from, n);
        } else {
          TrailerIsBehind(table, from + 32);
        }
      } else {
        FirstMagic(table, from, n);
      }
    }
  }

  lemma FirstMagic(table: seq<byte>, from: nat, n: nat)
    ensures TrailerAfter(table, from, n) && n > 0 ==> HasMagic(table, from)
  {
    if TrailerAfter(table, from, n) && n > 0 {
      var first := from + 32 * 0;
      assert first == from && HasMagic(table, first);
    }
  }

  lemma {:induction false} TrailerIsBehind(table: seq<byte>, from: nat)
    ensures I.TrailerFrom(table, from).Ok? ==> I.TrailerFrom(table, from).value >= from
    decreases |table| - from
  {
    if from + 2 <= |table| { TrailerIsBehind(table, from + 32); }
  }

  lemma {:induction false} TrailerIsEven(table: seq<byte>, from: nat) returns (n: nat)
    requires I.TrailerFrom(table, from).Ok?
    ensures I.TrailerFrom(table, from).value == from + 32 * n
    decreases |table| - from
  {
    if U16(table, from) == MD5_MAGIC {
      n := 0;
    } else {
      n := TrailerIsEven(table, from + 32);
      n := n + 1;
    }
  }

  lemma LaterTrailer(table: seq<byte>, from: nat, n: nat)
    requires n > 0 && HasMagic(table, from)
    ensures TrailerAfter(table, from, n) <==> TrailerAfter(table, from + 32, n - 1)
  {
    hide HasMagic;
    if TrailerAfter(table, from + 32, n - 1) {
      forall k | 0 <= k < n ensures HasMagic(table, from + 32 * k) {
        if k > 0 { assert HasMagic(table, from + 32 + 32 * (k - 1)); }
      }
    }
    if TrailerAfter(table, from, n) {
      forall k | 0 <= k < n - 1 ensures HasMagic(table, from + 32 + 32 * k) {
        assert HasMagic(table, from + 32 * (k + 1));
      }
    }
  }

  /** The inspector accepts a table exactly if the MD5 in its trailer is that of what comes before. */
  lemma InspectorTableIff(image: seq<byte>, h: Hashes)
    requires |image| >= I.TABLE_END
    ensures var table := image[0x8000..0x8C00];
      (exists n: nat :: TrailerAfter(table, 0, n) && Slice(table, 32 * n + 16, 32 * n + 32) == h.md5(table[..32 * n]))
      <==> I.ValidatePartitionTable(image, h).Ok?
    ensures var table := image[0x8000..0x8C00];
      forall n: nat :: TrailerAfter(table, 0, n) && I.ValidatePartitionTable(image, h).Ok?
        ==> I.ValidatePartitionTable(image, h).value == 32 * n
  {
    hide TrailerAfter, I.TrailerFrom;
    var table := image[0x8000..0x8C00];
    forall n: nat | TrailerAfter(table, 0, n)
      ensures I.TrailerFrom(table, 0) == Ok(32 * n) && 32 * n <= |table| && Slice(table, 0, 32 * n) == table[..32 * n]
    {
      TrailerIff(table, 0, n);
      TrailerFits(table, n);
    }
    if I.TrailerFrom(table, 0).Ok? {
      var n := TrailerIsEven(table, 0);
      TrailerIff(table, 0, n);
    }
  }

  lemma TrailerFits(table: seq<byte>, n: nat)
    requires TrailerAfter(table, 0, n)
    ensures 32 * n <= |table|
  {
  }

  // ----- The components -----

  /** The only partition of its name. */
  ghost predicate OnlyNamed(ps: seq<Partition>, name: string, p: Partition) {
    exists i :: 0 <= i < |ps| && ps[i] == p && p.name == name
      && forall j :: 0 <= j < |ps| && j != i ==> ps[j].name != name
  }

  lemma {:induction false} NamedIs(ps: seq<Partition>, name: string)
    ensures forall p <- B.Named(ps, name) :: p in ps && p.name == name
    ensures forall p <- ps :: p.name == name ==> p in B.Named(ps, name)
  {
    if ps != [] { NamedIs(ps[1..], name); }
  }

  lemma {:induction false} OnlyNamedIff(ps: seq<Partition>, name: string, p: Partition)
    ensures B.Named(ps, name) == [p] <==> OnlyNamed(ps, name, p)
  {
    if ps != [] {
      var h, t := ps[0], ps[1..];
      if h.name == name {
        NamedIs(t, name);
        NoOthers(ps, name, p);
      } else {
        OnlyNamedIff(t, name, p);
        OtherFirst(ps, name, p);
      }
    }
  }

  lemma NoOthers(ps: seq<Partition>, name: string, p: Partition)
    requires ps != [] && ps[0].name == name
    requires forall q <- ps[1..] :: q.name == name ==> q in B.Named(ps[1..], name)
    requires forall q <- B.Named(ps[1..], name) :: q in ps[1..] && q.name == name
    ensures B.Named(ps, name) == [p] <==> OnlyNamed(ps, name, p)
  {
    var t, rest := ps[1..], B.Named(ps[1..], name);
    assert B.Named(ps, name) == [ps[0]] + rest;
    assert ps[0].name == name;
    if rest == [] {
      forall j | 0 < j < |ps| ensures ps[j].name != name { assert ps[j] == t[j - 1] && t[j - 1] in t; }
      assert [ps[0]] + rest == [ps[0]] && [ps[0]][0] == ps[0];
      if ps[0] == p { assert OnlyNamed(ps, name, p); }
    } else {
      assert rest[0] in rest;
      var j :| 0 <= j < |t| && t[j] == rest[0];
      assert ps[j + 1] == t[j] && ps[j + 1].name == name;
    }
  }

  lemma OtherFirst(ps: seq<Partition>, name: string, p: Partition)
    requires ps != [] && ps[0].name != name
    ensures OnlyNamed(ps, name, p) <==> OnlyNamed(ps[1..], name, p)
  {
    var t := ps[1..];
    if OnlyNamed(t, name, p) {
      var i :| 0 <= i < |t| && t[i] == p && forall j :: 0 <= j < |t| && j != i ==> t[j].name != name;
      assert ps[i + 1] == p;
      assert forall j :: 0 < j < |ps| ==> ps[j] == t[j - 1];
    }
    if OnlyNamed(ps, name, p) {
      var i :| 0 <= i < |ps| && ps[i] == p && forall j :: 0 <= j < |ps| && j != i ==> ps[j].name != name;
      assert t[i - 1] == p;
      assert forall j :: 0 <= j < |t| ==> t[j] == ps[j + 1];
    }
  }

  lemma PartitionIs(ps: seq<Partition>, name: string, p: Partition)
    ensures B.PartitionByLabel(ps, name) == Ok(p) <==> OnlyNamed(ps, name, p)
  {
    hide B.Named;
    OnlyNamedIff(ps, name, p);
    var matches := B.Named(ps, name);
    assert |matches| == 1 && matches[0] == p <==> matches == [p];
  }

  /** OTA data that select app0: sequence 1 with its checksum, and sequence 0 in the second sector. */
  ghost predicate IsInitialOtadata(data: seq<byte>) {
    && |data| == 0x2000 && data[..4] == [1, 0, 0, 0] && IsErased(data[4..28]) && data[28..32] == Le32(OtaCrc(1))
    && IsErased(data[32..0x1000]) && data[0x1000..0x1004] == [0, 0, 0, 0] && IsErased(data[0x1004..])
  }

  lemma InitialOtadataIff(data: seq<byte>)
    ensures data == B.InitialOtadata() <==> IsInitialOtadata(data)
  {
    hide OtaCrc;
    assert Le32(1) == [1, 0, 0, 0] && Le32(0) == [0, 0, 0, 0];
    var a, b, c := Le32(1) + Erased(24) + Le32(OtaCrc(1)), Erased(0x1000 - 32), Le32(0) + Erased(0x1000 - 4);
    assert B.InitialOtadata() == a + b + c;
    if |data| == 0x2000 {
      assert data == data[..32] + data[32..0x1000] + data[0x1000..];
      assert data[..32] == data[..4] + data[4..28] + data[28..32];
      assert data[0x1000..] == data[0x1000..0x1004] + data[0x1004..];
      ErasedIs(data[4..28]);
      ErasedIs(data[32..0x1000]);
      ErasedIs(data[0x1004..]);
      if data == a + b + c {
        assert data[..32] == a && data[32..0x1000] == b && data[0x1000..] == c;
      }
    }
  }

  /** Neither of two components reaches into the other. */
  predicate Apart(a: B.Placed, b: B.Placed) {
    B.End(a) <= b.offset || B.End(b) <= a.offset
  }

  ghost predicate ApartFrom(p: B.Placed, qs: seq<B.Placed>) {
    forall q <- qs :: Apart(p, q)
  }

  ghost predicate AllApart(ps: seq<B.Placed>) {
    ps == [] || (ApartFrom(ps[0], ps[1..]) && AllApart(ps[1..]))
  }

  /** Every component lies in the flash, apart from the others. */
  ghost predicate Separate(ps: seq<B.Placed>, flashSize: nat) {
    (forall p <- ps :: B.End(p) <= flashSize) && AllApart(ps)
  }

  ghost predicate Behind(end: nat, qs: seq<B.Placed>) {
    forall q <- qs :: end <= q.offset
  }

  ghost predicate Stacked(qs: seq<B.Placed>) {
    qs == [] || (Behind(B.End(qs[0]), qs[1..]) && Stacked(qs[1..]))
  }

  ghost predicate NotEmpty(qs: seq<B.Placed>) {
    forall q <- qs :: q.data != []
  }

  lemma {:induction false} RangesPassIff(qs: seq<B.Placed>, previousEnd: nat, flashSize: nat)
    ensures B.CheckRanges(qs, previousEnd, flashSize).Ok? <==>
      Stacked(qs) && Behind(previousEnd, qs) && forall q <- qs :: B.End(q) <= flashSize
  {
    if qs != [] {
      RangesPassIff(qs[1..], B.End(qs[0]), flashSize);
      assert qs[0] in qs && forall q :: q in qs <==> q == qs[0] || q in qs[1..];
    }
  }

  lemma {:induction false} InsertedAre(p: B.Placed, qs: seq<B.Placed>)
    ensures forall q :: q in B.Insert(p, qs) <==> q == p || q in qs
  {
    if qs != [] && !B.Before(p, qs[0]) { InsertedAre(p, qs[1..]); }
  }

  /** One that comes after another is apart from it if it begins behind it. */
  lemma LaterApart(p: B.Placed, h: B.Placed)
    requires p.data != [] && h.data != []
    ensures !B.Before(p, h) ==> (Apart(p, h) <==> B.End(h) <= p.offset)
    ensures B.Before(p, h) ==> (Apart(p, h) <==> B.End(p) <= h.offset)
  {
  }

  /** A component joins sorted ones without overlap exactly if it is apart from each. */
  lemma {:induction false} InsertStacks(p: B.Placed, qs: seq<B.Placed>)
    requires NotEmpty(qs) && p.data != []
    ensures Stacked(B.Insert(p, qs)) <==> Stacked(qs) && ApartFrom(p, qs)
  {
    hide Apart;
    if qs == [] {
      assert [p][1..] == [];
    } else {
      var h, t := qs[0], qs[1..];
      assert h in qs && forall q :: q in qs <==> q == h || q in t;
      LaterApart(p, h);
      if B.Before(p, h) {
        assert ([p] + qs)[1..] == qs;
        if Stacked(qs) { FirstStacks(p, qs); }
      } else {
        assert B.Insert(p, qs)[1..] == B.Insert(p, t);
        InsertStacks(p, t);
        InsertedAre(p, t);
      }
    }
  }

  lemma FirstStacks(p: B.Placed, qs: seq<B.Placed>)
    requires NotEmpty(qs) && p.data != [] && qs != [] && B.Before(p, qs[0]) && Stacked(qs)
    ensures ApartFrom(p, qs) <==> Behind(B.End(p), qs)
  {
    var h, t := qs[0], qs[1..];
    assert h in qs && forall q :: q in qs <==> q == h || q in t;
    LaterApart(p, h);
    forall q | q in t ensures Apart(p, q) <==> B.End(p) <= q.offset { assert B.End(h) <= q.offset; }
  }

  lemma SortedAre(ps: seq<B.Placed>)
    ensures forall q :: q in B.Sorted(ps) <==> q in ps
  {
    forall q ensures q in B.Sorted(ps) <==> q in ps { B.SameMembers(ps, q); }
  }

  lemma {:induction false} SortedStacks(ps: seq<B.Placed>)
    requires NotEmpty(ps)
    ensures Stacked(B.Sorted(ps)) <==> AllApart(ps)
  {
    hide Apart;
    if ps != [] {
      assert ps[0] in ps && forall q :: q in ps[1..] ==> q in ps;
      SortedStacks(ps[1..]);
      SortedAre(ps[1..]);
      InsertStacks(ps[0], B.Sorted(ps[1..]));
    }
  }

  /** Components that are not empty pass exactly if they lie in the flash, apart from each other. */
  lemma RangesIff(ps: seq<B.Placed>, flashSize: nat)
    requires NotEmpty(ps)
    ensures B.CheckRanges(B.Sorted(ps), 0, flashSize).Ok? <==> Separate(ps, flashSize)
  {
    hide Stacked, AllApart, B.CheckRanges, B.Sorted;
    RangesPassIff(B.Sorted(ps), 0, flashSize);
    SortedStacks(ps);
    SortedAre(ps);
  }

  /** The image of a file system: of this size, not blank, and accepted by the tool. */
  ghost predicate IsFileSystem(data: seq<byte>, size: nat, o: B.Outside) {
    && |data| == size && o.spiffsAccepted
    && (exists i :: 0 <= i < |data| && data[i] != 0xFF) && (exists i :: 0 <= i < |data| && data[i] != 0)
  }

  ghost predicate IsSomeImage(data: seq<byte>, contract: B.Contract, h: Hashes, descriptor: bool) {
    exists ss, at: nat :: IsBuildImage(data, contract, h, descriptor, ss, at)
  }

  /** A complete set of components, at their places. */
  ghost predicate IsComponentSet(c: B.Components, contract: B.Contract, ps: seq<Partition>, h: Hashes, o: B.Outside,
                                 otadata: Partition, app0: Partition, spiffs: Partition, placed: seq<B.Placed>) {
    && IsSomeImage(c.bootloader, contract, h, false)
    && contract.bootloaderOffset + |c.bootloader| <= 0x8000
    && IsTable(c.partitions, ps, h)
    && OnlyNamed(ps, "otadata", otadata) && otadata.size == 0x2000 && IsInitialOtadata(c.otadata)
    && IsSomeImage(c.firmware, contract, h, true) && o.manifestAccepted
    && OnlyNamed(ps, "app0", app0) && |c.firmware| <= app0.size
    && OnlyNamed(ps, "spiffs", spiffs) && IsFileSystem(c.spiffs, spiffs.size, o)
    && placed == [B.Placed(contract.bootloaderOffset, c.bootloader, 0), B.Placed(0x8000, c.partitions, 3),
                  B.Placed(otadata.offset, c.otadata, 2), B.Placed(app0.offset, c.firmware, 1),
                  B.Placed(spiffs.offset, c.spiffs, 4)]
    && Separate(placed, contract.flashSize)
  }

  /** The build accepts exactly these, and puts them there. */
  lemma ComponentSetIff(c: B.Components, contract: B.Contract, ps: seq<Partition>, h: Hashes, o: B.Outside,
                        placed: seq<B.Placed>)
    ensures B.ValidateComponentSet(c, contract, ps, h, o) == Ok(placed) <==>
      exists otadata, app0, spiffs :: IsComponentSet(c, contract, ps, h, o, otadata, app0, spiffs, placed)
  {
    hide B.ValidateEspImage, B.ValidatePartitionBinary, B.PartitionByLabel, B.InitialOtadata, B.CheckRanges, B.Sorted,
      IsBuildImage, IsTable, OnlyNamed, IsInitialOtadata, Separate;
    BuildAcceptsIff(c.bootloader, contract, h, false);
    BuildAcceptsIff(c.firmware, contract, h, true);
    BuildTableIff(c.partitions, ps, h);
    InitialOtadataIff(c.otadata);
    ErasedIs(c.spiffs);
    forall p ensures B.PartitionByLabel(ps, "otadata") == Ok(p) <==> OnlyNamed(ps, "otadata", p) {
      PartitionIs(ps, "otadata", p);
    }
    forall p ensures B.PartitionByLabel(ps, "app0") == Ok(p) <==> OnlyNamed(ps, "app0", p) {
      PartitionIs(ps, "app0", p);
    }
    forall p ensures B.PartitionByLabel(ps, "spiffs") == Ok(p) <==> OnlyNamed(ps, "spiffs", p) {
      PartitionIs(ps, "spiffs", p);
    }
    if B.ValidateComponentSet(c, contract, ps, h, o) == Ok(placed) {
      var otadata, app0, spiffs := B.PartitionByLabel(ps, "otadata").value, B.PartitionByLabel(ps, "app0").value,
          B.PartitionByLabel(ps, "spiffs").value;
      SizesOf(c, contract, ps, h);
      RangesIff(placed, contract.flashSize);
      assert IsComponentSet(c, contract, ps, h, o, otadata, app0, spiffs, placed);
    }
    if otadata, app0, spiffs :| IsComponentSet(c, contract, ps, h, o, otadata, app0, spiffs, placed) {
      SizesOf(c, contract, ps, h);
      OtadataSize(c.otadata);
      RangesIff(placed, contract.flashSize);
    }
  }

  lemma SizesOf(c: B.Components, contract: B.Contract, ps: seq<Partition>, h: Hashes)
    requires B.ValidateEspImage(c.bootloader, contract, h, false).Ok?
    requires B.ValidateEspImage(c.firmware, contract, h, true).Ok? && IsTable(c.partitions, ps, h)
    ensures c.bootloader != [] && c.firmware != [] && c.partitions != []
  {
  }

  lemma OtadataSize(data: seq<byte>)
    requires IsInitialOtadata(data)
    ensures |data| == 0x2000
  {
  }
}
