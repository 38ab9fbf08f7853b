/** The partition layouts that the recovery tool accepts, and the plans that it prepares for them. */
module SpiffsRecoveryLayouts {
  import opened Wrappers
  import opened Bytes
  import opened Flash
  import opened SpiffsRecovery

  // ----- Partition layouts -----

  function End(p: Partition): nat {
    p.offset + p.size
  }

  predicate Fits(p: Partition, flashSize: nat) {
    p.name != "" && p.size > 0 && End(p) <= flashSize
  }

  predicate Apart(p: Partition, q: Partition) {
    p.name != q.name && (End(p) <= q.offset || End(q) <= p.offset)
  }

  predicate Distinct(ps: seq<Partition>) {
    ps == [] || (ps[0] !in ps[1..] && Distinct(ps[1..]))
  }

  /** Named, in the flash, and apart from each other; in whatever order they are listed. */
  ghost predicate WellFormed(ps: seq<Partition>, flashSize: nat) {
    && Distinct(ps)
    && (forall p :: p in ps ==> Fits(p, flashSize))
    && (forall p, q :: p in ps && q in ps && p != q ==> Apart(p, q))
  }

  ghost predicate ByOffset(ps: seq<Partition>) {
    forall j, k :: 0 <= j < k < |ps| ==> ps[j].offset <= ps[k].offset
  }

  lemma {:induction false} PlaceMembers(p: Partition, ps: seq<Partition>)
    ensures forall q :: q in Place(p, ps) <==> q == p || q in ps
    ensures Distinct(Place(p, ps)) <==> p !in ps && Distinct(ps)
  {
    if ps == [] || p.offset <= ps[0].offset {
      assert ([p] + ps)[1..] == ps;
    } else {
      PlaceMembers(p, ps[1..]);
      assert Place(p, ps)[1..] == Place(p, ps[1..]);
    }
  }

  lemma {:induction false} PlaceKeepsOrder(p: Partition, ps: seq<Partition>)
    requires ByOffset(ps)
    ensures ByOffset(Place(p, ps))
  {
    if ps != [] && p.offset > ps[0].offset {
      PlaceKeepsOrder(p, ps[1..]);
      PlaceMembers(p, ps[1..]);
      var rest := Place(p, ps[1..]);
      forall k | 0 <= k < |rest| ensures ps[0].offset <= rest[k].offset {
        assert rest[k] in rest;
      }
    }
  }

  lemma {:induction false} NormalizedKeeps(ps: seq<Partition>)
    ensures forall p :: p in Normalized(ps) <==> p in ps
    ensures Distinct(Normalized(ps)) <==> Distinct(ps)
    ensures ByOffset(Normalized(ps))
  {
    if ps != [] {
      NormalizedKeeps(ps[1..]);
      PlaceMembers(ps[0], Normalized(ps[1..]));
      PlaceKeepsOrder(ps[0], Normalized(ps[1..]));
    }
  }

  lemma WellFormedTail(h: Partition, t: seq<Partition>, flashSize: nat)
    ensures WellFormed([h] + t, flashSize) <==>
      h !in t && Fits(h, flashSize) && WellFormed(t, flashSize) && forall q :: q in t ==> Apart(h, q)
  {
    hide Fits;
    var ps := [h] + t;
    assert ps[0] == h && ps[1..] == t;
    assert h in ps && forall p :: p in ps <==> p == h || p in t;
  }

  lemma {:induction false} CheckRangesIff(ps: seq<Partition>, names: set<string>, previousEnd: nat, flashSize: nat)
    requires ByOffset(ps)
    ensures CheckRanges(ps, names, previousEnd, flashSize).Ok? <==>
      WellFormed(ps, flashSize) && forall p :: p in ps ==> p.name !in names && p.offset >= previousEnd
    decreases |ps|
  {
    hide WellFormed, Apart;
    if ps == [] {
      EmptyIsWellFormed(flashSize);
    } else {
      var h, t := ps[0], ps[1..];
      assert ps == [h] + t;
      HeadOfRanges(h, t, names, previousEnd, flashSize);
      if Fits(h, flashSize) && h.name !in names && h.offset >= previousEnd {
        CheckRangesIff(t, names + {h.name}, End(h), flashSize);
      }
    }
  }

  /** What the first partition must satisfy, and what is then left to ask of the others. */
  lemma HeadOfRanges(h: Partition, t: seq<Partition>, names: set<string>, previousEnd: nat, flashSize: nat)
    requires ByOffset([h] + t)
    ensures
      (WellFormed([h] + t, flashSize) && forall p :: p in [h] + t ==> p.name !in names && p.offset >= previousEnd) <==>
      (Fits(h, flashSize) && h.name !in names && h.offset >= previousEnd && WellFormed(t, flashSize)
       && forall p :: p in t ==> p.name !in names + {h.name} && p.offset >= End(h))
  {
    hide WellFormed, Apart;
    WellFormedTail(h, t, flashSize);
    LaterOffsets(h, t);
    if WellFormed(t, flashSize) {
      SizesPositive(t, flashSize);
      ApartIs(h, t);
    }
  }

  lemma LaterOffsets(h: Partition, t: seq<Partition>)
    requires ByOffset([h] + t)
    ensures forall p :: p in t ==> h.offset <= p.offset
    ensures forall p :: p in [h] + t <==> p == h || p in t
  {
    var ps := [h] + t;
    forall p | p in t ensures h.offset <= p.offset {
      var k :| 0 <= k < |t| && t[k] == p;
      assert ps[0] == h && ps[k + 1] == p;
    }
  }

  /** Partitions at or after `h` are apart from it if they begin after its end. */
  lemma ApartIs(h: Partition, t: seq<Partition>)
    requires forall p :: p in t ==> h.offset <= p.offset && p.size > 0
    ensures (forall q :: q in t ==> Apart(h, q)) <==> forall q :: q in t ==> q.name != h.name && q.offset >= End(h)
    ensures (forall q :: q in t ==> q.name != h.name) ==> h !in t
  {
  }

  lemma EmptyIsWellFormed(flashSize: nat)
    ensures WellFormed([], flashSize)
  {
  }

  lemma SizesPositive(ps: seq<Partition>, flashSize: nat)
    requires WellFormed(ps, flashSize)
    ensures forall p :: p in ps ==> p.size > 0
  {
  }

  lemma SameWellFormed(ps: seq<Partition>, qs: seq<Partition>, flashSize: nat)
    requires (forall p :: p in qs <==> p in ps) && (Distinct(qs) <==> Distinct(ps))
    ensures WellFormed(ps, flashSize) <==> WellFormed(qs, flashSize)
  {
    hide Distinct, Fits, Apart;
  }

  /** Partition ranges are accepted exactly if the layout is well-formed. */
  lemma RangesAcceptedIff(ps: seq<Partition>, flashSize: nat)
    ensures CheckRanges(Normalized(ps), {}, 0, flashSize).Ok? <==> WellFormed(ps, flashSize)
  {
    hide CheckRanges, Normalized, WellFormed, Distinct;
    NormalizedKeeps(ps);
    CheckRangesIff(Normalized(ps), {}, 0, flashSize);
    SameWellFormed(ps, Normalized(ps), flashSize);
  }

  // ----- Normalising twice -----

  lemma {:induction false} SortedStays(ps: seq<Partition>)
    requires ByOffset(ps)
    ensures Normalized(ps) == ps
  {
    if ps != [] { SortedStays(ps[1..]); }
  }

  lemma NormalizedTwice(ps: seq<Partition>)
    ensures Normalized(Normalized(ps)) == Normalized(ps)
  {
    NormalizedKeeps(ps);
    SortedStays(Normalized(ps));
  }

  // ----- A prepared plan -----

  ghost predicate InOrder(rs: seq<Protected>) {
    forall j, k :: 0 <= j < k < |rs| ==> rs[j].offset <= rs[k].offset
  }

  lemma {:induction false} ProtectedFrom(ps: seq<Partition>, r: Protected)
    requires r in ProtectedRanges(ps)
    ensures exists p :: p in ps && p.offset == r.offset
  {
    if ps[0].name != "spiffs" && r.offset == ps[0].offset {
      assert ps[0] in ps;
    } else {
      ProtectedFrom(ps[1..], r);
      var p :| p in ps[1..] && p.offset == r.offset;
      assert p in ps;
    }
  }

  lemma {:induction false} SortedProtected(ps: seq<Partition>)
    requires ByOffset(ps)
    ensures InOrder(ProtectedRanges(ps))
  {
    if ps != [] {
      SortedProtected(ps[1..]);
      var rest := ProtectedRanges(ps[1..]);
      forall k | 0 <= k < |rest| ensures ps[0].offset <= rest[k].offset {
        assert rest[k] in rest;
        ProtectedFrom(ps[1..], rest[k]);
        var p :| p in ps[1..] && p.offset == rest[k].offset;
        var i :| 0 <= i < |ps[1..]| && ps[1..][i] == p;
        assert ps[i + 1] == p;
      }
    }
  }

  lemma ProtectedHead(p: Partition, ps: seq<Partition>)
    ensures ProtectedRanges([p] + ps) == ProtectedRanges([p]) + ProtectedRanges(ps)
    ensures |ProtectedRanges([p])| == if p.name == "spiffs" then 0 else 1
    ensures p.name != "spiffs" ==> ProtectedRanges([p])[0].offset == p.offset
  {
    assert [p][1..] == [] && ([p] + ps)[1..] == ps;
  }

  lemma {:induction false} ProtectedAfterPlace(p: Partition, ps: seq<Partition>)
    requires p.name != "spiffs" ==> forall r :: r in ProtectedRanges(ps) ==> p.offset <= r.offset
    ensures ProtectedRanges(Place(p, ps)) == ProtectedRanges([p]) + ProtectedRanges(ps)
  {
    hide ProtectedRanges;
    if ps == [] || p.offset <= ps[0].offset {
      ProtectedHead(p, ps);
    } else {
      var first, rest := ProtectedRanges([ps[0]]), ProtectedRanges(ps[1..]);
      assert ps == [ps[0]] + ps[1..];
      ProtectedHead(ps[0], ps[1..]);
      ProtectedHead(p, []);
      ProtectedHead(ps[0], Place(p, ps[1..]));
      assert first != [] ==> first[0] in first + rest;
      ProtectedAfterPlace(p, ps[1..]);
      assert first == [] || ProtectedRanges([p]) == [];
      assert first + (ProtectedRanges([p]) + rest) == ProtectedRanges([p]) + (first + rest);
    }
  }

  /** Sorting the partitions leaves the protected ranges as they are listed exactly if they are
      listed in the order of their offsets. */
  lemma {:induction false} ProtectedUnchanged(ps: seq<Partition>)
    ensures InOrder(ProtectedRanges(ps)) ==> ProtectedRanges(Normalized(ps)) == ProtectedRanges(ps)
  {
    hide ProtectedRanges, InOrder, Place;
    if ps != [] && InOrder(ProtectedRanges(ps)) {
      var h, t := ps[0], ps[1..];
      assert ps == [h] + t;
      ProtectedHead(h, t);
      InOrderParts(ProtectedRanges([h]), ProtectedRanges(t));
      ProtectedUnchanged(t);
      ProtectedAfterPlace(h, Normalized(t));
    }
  }

  lemma InOrderParts(first: seq<Protected>, rest: seq<Protected>)
    requires InOrder(first + rest)
    ensures InOrder(rest)
    ensures first != [] ==> forall r :: r in rest ==> first[0].offset <= r.offset
  {
    var all := first + rest;
    assert forall j :: 0 <= j < |rest| ==> rest[j] == all[|first| + j];
    if first != [] {
      forall r | r in rest ensures first[0].offset <= r.offset {
        var j :| 0 <= j < |rest| && rest[j] == r;
        assert all[0].offset <= all[|first| + j].offset;
      }
    }
  }

  lemma ProtectedUnchangedIff(ps: seq<Partition>)
    ensures ProtectedRanges(Normalized(ps)) == ProtectedRanges(ps) <==> InOrder(ProtectedRanges(ps))
  {
    ProtectedUnchanged(ps);
    NormalizedKeeps(ps);
    SortedProtected(Normalized(ps));
  }

  lemma SpiffsOfNormalized(ps: seq<Partition>)
    ensures SpiffsPartition(Normalized(ps)) == SpiffsPartition(ps)
  {
    NormalizedTwice(ps);
  }

  /** A prepared plan is accepted by the check before execution exactly if the profile's CSV
      lists the partitions other than SPIFFS in the order of their offsets: the plan holds
      them sorted, and the check compares them as listed. */
  lemma PreparedPlanIsAcceptedIff(t: Tools, p: Profile, device: Device, mac: string, r: Reads, f: Files, sha256: string,
                                  build: string, directory: string)
    requires BuildRestorePlan(t, p, device, mac, r, f, sha256, build, directory).Ok?
    requires f.backupA == r.backupA && f.backupB == r.backupB && ById(device.port)
    ensures ValidateRestorePlan(t, BuildRestorePlan(t, p, device, mac, r, f, sha256, build, directory).value, f).Ok?
      <==> InOrder(ProtectedRanges(t.csv(p)))
  {
    hide Normalized, CheckRanges, Candidates, ProtectedRanges, InOrder, Blank, ById;
    var csv := t.csv(p);
    NormalizedTwice(csv);
    SpiffsOfNormalized(csv);
    ProtectedUnchangedIff(csv);
  }
}
