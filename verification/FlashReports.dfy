/** When the inspector reports on an image at all, and which applications it reports on. */
module FlashReports {
  import opened Wrappers
  import opened Bytes
  import opened Flash
  import opened FlashTables
  import opened NvsPages
  import opened OtaSelection
  import I = FlashInspector

  // ----- The layout -----

  /** The last partition of its name. */
  predicate IsLastNamed(ps: seq<Partition>, name: string, p: Partition) {
    exists i :: 0 <= i < |ps| && ps[i] == p && p.name == name && forall j :: i < j < |ps| ==> ps[j].name != name
  }

  lemma LastOrBefore(ps: seq<Partition>, last: Partition, name: string, p: Partition)
    ensures IsLastNamed(ps + [last], name, p) <==> if last.name == name then p == last else IsLastNamed(ps, name, p)
  {
    var all := ps + [last];
    if last.name == name {
      assert all[|ps|] == last;
    } else {
      if IsLastNamed(all, name, p) {
        var i :| 0 <= i < |all| && all[i] == p && p.name == name && forall j :: i < j < |all| ==> all[j].name != name;
        assert ps[i] == p && forall j :: i < j < |ps| ==> ps[j] == all[j];
      }
      if IsLastNamed(ps, name, p) {
        var i :| 0 <= i < |ps| && ps[i] == p && p.name == name && forall j :: i < j < |ps| ==> ps[j].name != name;
        assert all[i] == p && forall j :: i < j < |ps| ==> all[j] == ps[j];
      }
    }
  }

  lemma {:induction false} LabelledIs(ps: seq<Partition>, name: string, p: Partition)
    ensures I.ByLabel(ps, name) == Some(p) <==> IsLastNamed(ps, name, p)
    decreases |ps|
  {
    if ps == [] {
      NoneNamed(name, p);
    } else {
      hide IsLastNamed;
      var init, last := ps[..|ps| - 1], ps[|ps| - 1];
      assert ps == init + [last];
      LabelledIs(init, name, p);
      LastOrBefore(init, last, name, p);
    }
  }

  lemma NoneNamed(name: string, p: Partition)
    ensures !IsLastNamed([], name, p)
  {
  }

  ghost predicate IsThere(ps: seq<Partition>, name: string, offset: nat, size: nat) {
    exists p :: IsLastNamed(ps, name, p) && p.offset == offset && p.size == size
  }

  lemma LocatedIff(ps: seq<Partition>, name: string, offset: nat, size: nat, imageSize: nat)
    ensures var r := I.Located(ps, name, offset, size, imageSize);
      && (r.Ok? <==> IsThere(ps, name, offset, size) && offset + size <= imageSize)
      && (r.Ok? ==> r.value.offset == offset && r.value.size == size)
  {
    hide IsLastNamed;
    forall p ensures I.ByLabel(ps, name) == Some(p) <==> IsLastNamed(ps, name, p) { LabelledIs(ps, name, p); }
  }

  /** The partitions that the inspector requires. */
  ghost predicate HasLayout(ps: seq<Partition>) {
    && IsThere(ps, "nvs", 0x9000, 0x5000) && IsThere(ps, "otadata", 0xE000, 0x2000)
    && IsThere(ps, "app0", 0x1_0000, 0x1E_0000) && IsThere(ps, "app1", 0x1F_0000, 0x1E_0000)
    && IsThere(ps, "spiffs", 0x3D_0000, 0x3_0000)
  }

  // ----- The applications -----

  predicate IsOta(p: Partition) {
    p.kind == 0 && (p.subtype == 0x10 || p.subtype == 0x11)
  }

  /** The OTA applications by subtype, and those of one subtype as they are listed: `at` are their
      places in the table. */
  predicate AreApps(ps: seq<Partition>, apps: seq<Partition>, at: seq<nat>) {
    && |at| == |apps|
    && (forall i :: 0 <= i < |at| ==> at[i] < |ps| && apps[i] == ps[at[i]] && IsOta(apps[i]))
    && (forall i, j :: 0 <= i < j < |at| ==>
          apps[i].subtype < apps[j].subtype || (apps[i].subtype == apps[j].subtype && at[i] < at[j]))
    && (forall k :: 0 <= k < |ps| && IsOta(ps[k]) ==> k in at)
  }

  /** The places of the applications of a subtype, from `from` on. */
  predicate ArePlaces(ps: seq<Partition>, from: nat, subtype: nat, apps: seq<Partition>, at: seq<nat>) {
    && |at| == |apps|
    && (forall i :: 0 <= i < |at| ==> from <= at[i] < |ps| && apps[i] == ps[at[i]]
                                      && apps[i].kind == 0 && apps[i].subtype == subtype)
    && (forall i, j :: 0 <= i < j < |at| ==> at[i] < at[j])
    && (forall k :: from <= k < |ps| && ps[k].kind == 0 && ps[k].subtype == subtype ==> k in at)
  }

  lemma {:induction false} OneSubtype(ps: seq<Partition>, from: nat, subtype: nat) returns (at: seq<nat>)
    requires from <= |ps|
    ensures ArePlaces(ps, from, subtype, I.OfSubtype(ps[from..], subtype), at)
    decreases |ps| - from
  {
    hide ArePlaces;
    if from == |ps| {
      at := [];
      NoPlaces(ps, subtype);
    } else {
      var rest := OneSubtype(ps, from + 1, subtype);
      assert ps[from..][1..] == ps[from + 1..] && ps[from..][0] == ps[from];
      if ps[from].kind == 0 && ps[from].subtype == subtype {
        at := [from] + rest;
        OneMorePlace(ps, from, subtype, I.OfSubtype(ps[from + 1..], subtype), rest);
      } else {
        at := rest;
        SamePlaces(ps, from, subtype, I.OfSubtype(ps[from + 1..], subtype), rest);
      }
    }
  }

  lemma NoPlaces(ps: seq<Partition>, subtype: nat)
    ensures ArePlaces(ps, |ps|, subtype, [], [])
  {
  }

  lemma SamePlaces(ps: seq<Partition>, from: nat, subtype: nat, apps: seq<Partition>, at: seq<nat>)
    requires from < |ps| && ArePlaces(ps, from + 1, subtype, apps, at)
    requires ps[from].kind != 0 || ps[from].subtype != subtype
    ensures ArePlaces(ps, from, subtype, [] + apps, at)
  {
    assert [] + apps == apps;
  }

  lemma OneMorePlace(ps: seq<Partition>, from: nat, subtype: nat, apps: seq<Partition>, at: seq<nat>)
    requires from < |ps| && ArePlaces(ps, from + 1, subtype, apps, at)
    requires ps[from].kind == 0 && ps[from].subtype == subtype
    ensures ArePlaces(ps, from, subtype, [ps[from]] + apps, [from] + at)
  {
    var all, more := [from] + at, [ps[from]] + apps;
    assert forall i :: 0 < i < |all| ==> all[i] == at[i - 1] && more[i] == apps[i - 1];
    forall k | from <= k < |ps| && ps[k].kind == 0 && ps[k].subtype == subtype ensures k in all {
      assert k == from || k in at;
    }
  }

  /** The inspector reports on exactly the OTA applications. */
  lemma AppsAre(ps: seq<Partition>) returns (at: seq<nat>)
    ensures AreApps(ps, I.Apps(ps), at)
  {
    hide I.OfSubtype, ArePlaces, AreApps;
    assert ps[0..] == ps;
    var zeros := OneSubtype(ps, 0, 0x10);
    var ones := OneSubtype(ps, 0, 0x11);
    at := zeros + ones;
    BothSubtypes(ps, I.OfSubtype(ps, 0x10), zeros, I.OfSubtype(ps, 0x11), ones);
  }

  lemma BothSubtypes(ps: seq<Partition>, a: seq<Partition>, x: seq<nat>, b: seq<Partition>, y: seq<nat>)
    requires ArePlaces(ps, 0, 0x10, a, x) && ArePlaces(ps, 0, 0x11, b, y)
    ensures AreApps(ps, a + b, x + y)
  {
    var apps, at := a + b, x + y;
    forall i | 0 <= i < |at| ensures at[i] < |ps| && apps[i] == ps[at[i]] && IsOta(apps[i]) {
      if i < |x| { assert apps[i] == a[i] && at[i] == x[i]; }
      else { assert apps[i] == b[i - |x|] && at[i] == y[i - |x|]; }
    }
    forall i, j | 0 <= i < j < |at|
      ensures apps[i].subtype < apps[j].subtype || (apps[i].subtype == apps[j].subtype && at[i] < at[j])
    {
      OneBeforeOther(ps, a, x, b, y, i, j);
    }
    forall k | 0 <= k < |ps| && IsOta(ps[k]) ensures k in at {
      assert k in (if ps[k].subtype == 0x10 then x else y);
    }
  }

  lemma OneBeforeOther(ps: seq<Partition>, a: seq<Partition>, x: seq<nat>, b: seq<Partition>, y: seq<nat>, i: int,
                       j: int)
    requires ArePlaces(ps, 0, 0x10, a, x) && ArePlaces(ps, 0, 0x11, b, y) && 0 <= i < j < |x + y|
    ensures var apps, at := a + b, x + y;
      apps[i].subtype < apps[j].subtype || (apps[i].subtype == apps[j].subtype && at[i] < at[j])
  {
    if j < |x| {
      assert a[i].subtype == a[j].subtype && x[i] < x[j];
    } else if i < |x| {
      assert (a + b)[i] == a[i] && (a + b)[j] == b[j - |x|];
    } else {
      assert b[i - |x|].subtype == b[j - |x|].subtype && y[i - |x|] < y[j - |x|];
    }
  }

  /** Each with its name and the bytes of its partition. */
  lemma {:induction false} AppsAreInspected(image: seq<byte>, apps: seq<Partition>, h: Hashes)
    ensures var reports := I.InspectApps(image, apps, h);
      |reports| == |apps| && forall i :: 0 <= i < |apps| ==>
        reports[i] == I.InspectApp(apps[i].name, Slice(image, apps[i].offset, apps[i].offset + apps[i].size), h)
  {
    hide I.InspectApp, Slice;
    if apps != [] { AppsAreInspected(image, apps[1..], h); }
  }

  // ----- The whole image -----

  /** The table has a trailer with the MD5 of what comes before it. */
  ghost predicate HasTrailer(image: seq<byte>, h: Hashes)
    requires |image| >= I.TABLE_END
  {
    var table := image[0x8000..0x8C00];
    exists n: nat :: TrailerAfter(table, 0, n) && Slice(table, 32 * n + 16, 32 * n + 32) == h.md5(table[..32 * n])
  }

  /** A device that the inspector reports on: a table with the required layout and its MD5, four
      megabytes at least, non-volatile storage in order, and a file system that the tool accepts. */
  ghost predicate IsReadable(image: seq<byte>, h: Hashes, spiffsAccepted: seq<byte> -> bool, ps: seq<Partition>) {
    && |image| >= 0x40_0000
    && ps != [] && HasEntries(image, 0x8000, ps) && HasTrailer(image, h) && HasLayout(ps)
    && PagesOk(image[0x9000..0xE000], h)
    && spiffsAccepted(image[0x3D_0000..0x40_0000])
  }

  lemma ReportNeeds(image: seq<byte>, h: Hashes, spiffsAccepted: seq<byte> -> bool, ps: seq<Partition>)
    requires I.Partitions(image) == Ok(ps)
    ensures I.InspectImage(image, h, spiffsAccepted).Ok? <==>
      && I.ValidatePartitionTable(image, h).Ok? && HasLayout(ps) && |image| >= 0x40_0000
      && I.ValidateNvs(image[0x9000..0xE000], h).Ok? && spiffsAccepted(image[0x3D_0000..0x40_0000])
    ensures I.InspectImage(image, h, spiffsAccepted).Ok? ==>
      var r := I.InspectImage(image, h, spiffsAccepted).value;
      r.partitions == ps && r.apps == I.InspectApps(image, I.Apps(ps), h)
  {
    hide I.Partitions, I.ValidatePartitionTable, I.OtaRecord, I.InspectApps, I.OtadataSummary, I.ValidateNvs,
      I.PreviousCandidates, I.Apps, I.Located, IsThere;
    LocatedIff(ps, "nvs", 0x9000, 0x5000, |image|);
    LocatedIff(ps, "otadata", 0xE000, 0x2000, |image|);
    LocatedIff(ps, "app0", 0x1_0000, 0x1E_0000, |image|);
    LocatedIff(ps, "app1", 0x1F_0000, 0x1E_0000, |image|);
    LocatedIff(ps, "spiffs", 0x3D_0000, 0x3_0000, |image|);
    if |image| >= 0x1_0000 {
      ReadFrom(image, 0xE000, 0, |I.Apps(ps)|);
      ReadFrom(image, 0xF000, 1, |I.Apps(ps)|);
    }
  }

  /** There is a report exactly then. */
  lemma ReportIff(image: seq<byte>, h: Hashes, spiffsAccepted: seq<byte> -> bool)
    ensures I.InspectImage(image, h, spiffsAccepted).Ok? <==>
      exists ps :: IsReadable(image, h, spiffsAccepted, ps)
  {
    hide I.Partitions, I.ValidatePartitionTable, I.InspectImage, I.ValidateNvs, HasEntries, TrailerAfter, HasLayout,
      PagesOk;
    forall ps ensures I.Partitions(image) == Ok(ps) <==> ps != [] && HasEntries(image, 0x8000, ps) {
      PartitionsIff(image, ps);
    }
    if |image| >= 0x40_0000 {
      InspectorTableIff(image, h);
      NvsIff(image[0x9000..0xE000], h);
    }
    if I.Partitions(image).Ok? {
      var ps := I.Partitions(image).value;
      ReportNeeds(image, h, spiffsAccepted, ps);
      if I.InspectImage(image, h, spiffsAccepted).Ok? { assert IsReadable(image, h, spiffsAccepted, ps); }
    } else {
      NoTableNoReport(image, h, spiffsAccepted);
    }
  }

  lemma NoTableNoReport(image: seq<byte>, h: Hashes, spiffsAccepted: seq<byte> -> bool)
    requires I.Partitions(image).Err?
    ensures I.InspectImage(image, h, spiffsAccepted).Err?
  {
    hide I.Partitions, I.Located;
  }
}
