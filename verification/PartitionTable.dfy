/** Partition tables as the build writes them: one entry per partition, an MD5 trailer, erased flash. */
module PartitionTable {
  import opened Wrappers
  import opened Bytes
  import opened Flash
  import B = FullImage

  /** What fits the fields of an entry. */
  predicate Printable(p: Partition) {
    && |p.name| <= 16 && IsText(p.name)
    && p.kind < 256 && p.subtype < 256
    && p.offset <= UNDEFINED && p.size <= UNDEFINED && p.flags <= UNDEFINED
  }

  predicate IsText(s: string) {
    forall i :: 0 <= i < |s| ==> '\0' < s[i] < '\U{80}'
  }

  function Label(name: string): (b: seq<byte>)
    requires IsText(name)
    ensures |b| == |name| && forall i :: 0 <= i < |b| ==> 0 < b[i] < 128 && b[i] as char == name[i]
  {
    if name == "" then [] else [Ascii(name[0])] + Label(name[1..])
  }

  function Ascii(c: char): (b: byte)
    requires '\0' < c < '\U{80}'
    ensures 0 < b < 128 && b as char == c
  {
    c as int
  }

  function Entry(p: Partition): (b: seq<byte>)
    requires Printable(p)
    ensures |b| == ENTRY_SIZE
  {
    [0xAA, 0x50, p.kind, p.subtype] + Le32(p.offset) + Le32(p.size) + (Label(p.name) + Zeros(16 - |p.name|))
      + Le32(p.flags)
  }

  predicate AllPrintable(ps: seq<Partition>) {
    forall p <- ps :: Printable(p)
  }

  function Entries(ps: seq<Partition>): (b: seq<byte>)
    requires AllPrintable(ps)
    ensures |b| == |ps| * ENTRY_SIZE
  {
    if ps == [] then [] else Entries(ps[..|ps| - 1]) + Entry(ps[|ps| - 1])
  }

  function Table(ps: seq<Partition>, h: Hashes): (b: seq<byte>)
    requires AllPrintable(ps) && |ps| * ENTRY_SIZE + 32 <= PARTITION_TABLE_SIZE && |h.md5(Entries(ps))| == 16
    ensures |b| == PARTITION_TABLE_SIZE
  {
    Entries(ps) + [0xEB, 0xEB] + Erased(14) + h.md5(Entries(ps)) + Erased(PARTITION_TABLE_SIZE - |ps| * ENTRY_SIZE - 32)
  }

  // ----- Entries are read back -----

  lemma EntryIsReadBack(p: Partition)
    requires Printable(p)
    ensures var raw := Entry(p);
      U16(raw, 0) == PARTITION_MAGIC && IsAscii(LabelBytes(raw)) && ParseEntry(raw) == p
  {
    hide U32, Le32;
    var raw, name := Entry(p), Label(p.name);
    assert raw[4..8] == Le32(p.offset) && raw[8..12] == Le32(p.size) && raw[28..32] == Le32(p.flags);
    WordInside(raw, 4, p.offset);
    WordInside(raw, 8, p.size);
    WordInside(raw, 28, p.flags);
    assert raw[12..28] == name + Zeros(16 - |p.name|);
    PaddedIsReadBack(name, 16 - |p.name|);
    assert Decode(name) == p.name;
  }

  lemma {:induction false} EntriesAreReadBack(ps: seq<Partition>, table: seq<byte>, n: nat)
    requires AllPrintable(ps) && n <= |ps| && Entries(ps) <= table
    ensures B.Entries(table, n) == Ok(ps[..n])
  {
    hide Entry, ParseEntry, U16, LabelBytes, IsAscii, Entries;
    if n > 0 {
      EntriesAreReadBack(ps, table, n - 1);
      assert ps[n - 1] in ps;
      EntryAt(ps, n - 1);
      var at := (n - 1) * ENTRY_SIZE;
      assert table[at..at + ENTRY_SIZE] == Entries(ps)[at..at + ENTRY_SIZE];
      EntryIsReadBack(ps[n - 1]);
      assert ps[..n] == ps[..n - 1] + [ps[n - 1]];
    }
  }

  lemma {:induction false} EntryAt(ps: seq<Partition>, k: nat)
    requires AllPrintable(ps) && k < |ps|
    ensures Entries(ps)[k * ENTRY_SIZE..(k + 1) * ENTRY_SIZE] == Entry(ps[k])
  {
    hide Entry;
    var before := Entries(ps[..|ps| - 1]);
    if k < |ps| - 1 {
      EntryAt(ps[..|ps| - 1], k);
      assert (before + Entry(ps[|ps| - 1]))[k * ENTRY_SIZE..(k + 1) * ENTRY_SIZE]
          == before[k * ENTRY_SIZE..(k + 1) * ENTRY_SIZE];
    }
  }

  /** The build accepts the table it writes for what it expects. */
  lemma TableIsAccepted(ps: seq<Partition>, h: Hashes)
    requires AllPrintable(ps) && |ps| * ENTRY_SIZE + 32 <= PARTITION_TABLE_SIZE && |h.md5(Entries(ps))| == 16
    ensures B.ValidatePartitionBinary(Table(ps, h), ps, h).Ok?
  {
    hide Entries, B.Entries;
    var table, at := Table(ps, h), |ps| * ENTRY_SIZE;
    EntriesAreReadBack(ps, table, |ps|);
    assert ps[..|ps|] == ps;
    assert table[at] == 0xEB && table[at + 1] == 0xEB;
    assert table[at + 2..at + 16] == Erased(14) && table[at + 16..at + 32] == h.md5(Entries(ps))
        && table[..at] == Entries(ps);
    assert table[at + 32..] == Erased(PARTITION_TABLE_SIZE - at - 32);
  }
}
