/**
 What the upload callbacks can spell, for any body at all: the parser never hands over a file
 that contains the delimiter, unless it has stored through a null upload buffer.
 */
module MultipartUploads {
  import opened Multipart
  import opened MultipartForm
  import opened MultipartContent

  // ----- Groups of uploads -----

  /** Uploads of whole files, none of which contains the pattern. */
  ghost predicate Clean(pattern: string, us: seq<Upload>)
    decreases |us|
  {
    us == [] ||
    exists k: nat, name, content ::
      k < |us| && FileUploads(name, content, us[k..]) && Clean(pattern, us[..k]) && !Occurs(pattern, content)
  }

  /** And after them, perhaps, the beginning of one more file. */
  ghost predicate CleanOpen(pattern: string, us: seq<Upload>) {
    exists m :: 0 <= m <= |us| && Clean(pattern, us[..m]) && forall i :: m <= i < |us| ==> !us[i].final
  }

  ghost predicate EndsFinal(us: seq<Upload>) {
    us == [] || us[|us| - 1].final
  }

  lemma {:induction false} ChunksAreNotFinal(name: string, content: string, us: seq<Upload>)
    requires Chunks(name, content, us)
    ensures forall i :: 0 <= i < |us| ==> !us[i].final
    decreases |us|
  {
    if us != [] { ChunksAreNotFinal(name, content[..us[|us| - 1].index], us[..|us| - 1]); }
  }

  /** Only the last upload of a file is final. */
  lemma OnlyLastIsFinal(name: string, content: string, us: seq<Upload>)
    requires FileUploads(name, content, us)
    ensures us != [] && us[|us| - 1].final && forall i :: 0 <= i < |us| - 1 ==> !us[i].final
  {
    ChunksAreNotFinal(name, content[..us[|us| - 1].index], us[..|us| - 1]);
  }

  lemma {:induction false} ChunksSpellOne(name: string, content: string, name': string, content': string,
                                          us: seq<Upload>)
    requires Chunks(name, content, us) && Chunks(name', content', us)
    ensures content == content'
    decreases |us|
  {
    if us != [] {
      var u := us[|us| - 1];
      ChunksSpellOne(name, content[..u.index], name', content'[..u.index], us[..|us| - 1]);
      assert content == content[..u.index] + content[u.index..]
          && content' == content'[..u.index] + content'[u.index..];
    }
  }

  /** The uploads of a file determine its content. */
  lemma UploadsSpellOne(name: string, content: string, name': string, content': string, us: seq<Upload>)
    requires FileUploads(name, content, us) && FileUploads(name', content', us)
    ensures content == content'
  {
    var u := us[|us| - 1];
    ChunksSpellOne(name, content[..u.index], name', content'[..u.index], us[..|us| - 1]);
    assert content == content[..u.index] + content[u.index..] && content' == content'[..u.index] + content'[u.index..];
  }

  lemma CleanEndsFinal(pattern: string, us: seq<Upload>)
    requires Clean(pattern, us)
    ensures EndsFinal(us)
  {
    if us != [] {
      var k: nat, name, content :| k < |us| && FileUploads(name, content, us[k..]);
      OnlyLastIsFinal(name, content, us[k..]);
      assert us[k..][|us[k..]| - 1] == us[|us| - 1];
    }
  }

  lemma {:induction false} DeliveredEndsFinal(parts: seq<Part>, us: seq<Upload>)
    requires AllDelivered(parts, us)
    ensures EndsFinal(us)
    decreases |parts|
  {
    if parts != [] {
      var k :| 0 <= k <= |us| && AllDelivered(parts[..|parts| - 1], us[..k]) && Delivered(parts[|parts| - 1], us[k..]);
      var p := parts[|parts| - 1];
      if p.Field? || p.content == "" {
        assert us[..k] == us;
        DeliveredEndsFinal(parts[..|parts| - 1], us);
      } else {
        OnlyLastIsFinal(p.filename, p.content, us[k..]);
        assert us[k..][|us[k..]| - 1] == us[|us| - 1];
      }
    }
  }

  /** Two ways to split the uploads before the last file are one. */
  lemma SameGroup(us: seq<Upload>, k: nat, k': nat)
    requires k < |us| && k' < |us| && EndsFinal(us[..k]) && EndsFinal(us[..k'])
    requires forall i :: k <= i < |us| - 1 ==> !us[i].final
    requires forall i :: k' <= i < |us| - 1 ==> !us[i].final
    ensures k == k'
  {
  }

  /** A form whose uploads arrived as expected, from clean uploads, has clean files. */
  lemma {:induction false} DeliveredIsClean(pattern: string, parts: seq<Part>, us: seq<Upload>, p: Part)
    requires pattern != "" && CleanOpen(pattern, us) && AllDelivered(parts, us) && p in parts && p.File?
    ensures !Occurs(pattern, p.content)
    decreases |parts|
  {
    hide Clean;
    var init, last := parts[..|parts| - 1], parts[|parts| - 1];
    var k :| 0 <= k <= |us| && AllDelivered(init, us[..k]) && Delivered(last, us[k..]);
    if last.Field? || last.content == "" {
      assert us[..k] == us;
      if p == last {
        EmptyHasNone(pattern);
      } else {
        DeliveredIsClean(pattern, init, us, p);
      }
    } else {
      var k', name, content := LastFile(pattern, init, last, us, k);
      if p != last {
        assert us[..k][..k] == us[..k] && CleanOpen(pattern, us[..k]);
        DeliveredIsClean(pattern, init, us[..k], p);
      }
    }
  }

  lemma EmptyHasNone(pattern: string)
    requires pattern != ""
    ensures !Occurs(pattern, "")
  {
  }

  /** The last file of clean uploads. */
  lemma LastClean(pattern: string, us: seq<Upload>) returns (k: nat, name: string, content: string)
    requires Clean(pattern, us) && us != []
    ensures k < |us| && FileUploads(name, content, us[k..]) && Clean(pattern, us[..k]) && !Occurs(pattern, content)
    ensures EndsFinal(us[..k]) && forall i :: k <= i < |us| - 1 ==> !us[i].final
  {
    hide FileUploads, Occurs;
    k, name, content :|
      k < |us| && FileUploads(name, content, us[k..]) && Clean(pattern, us[..k]) && !Occurs(pattern, content);
    OnlyLastIsFinal(name, content, us[k..]);
    assert forall i :: k <= i < |us| - 1 ==> us[i] == us[k..][i - k];
    CleanEndsFinal(pattern, us[..k]);
  }

  lemma LastFile(pattern: string, init: seq<Part>, last: Part, us: seq<Upload>, k: nat)
    returns (k': nat, name: string, content: string)
    requires CleanOpen(pattern, us) && k <= |us| && AllDelivered(init, us[..k])
    requires last.File? && FileUploads(last.filename, last.content, us[k..])
    ensures k' == k && Clean(pattern, us[..k]) && !Occurs(pattern, last.content)
  {
    hide FileUploads, Clean, Occurs, AllDelivered;
    OnlyLastIsFinal(last.filename, last.content, us[k..]);
    assert us[k..][|us[k..]| - 1] == us[|us| - 1];
    assert forall i :: k <= i < |us| - 1 ==> us[i] == us[k..][i - k];
    var m :| 0 <= m <= |us| && Clean(pattern, us[..m]) && forall i :: m <= i < |us| ==> !us[i].final;
    assert us[..m] == us;
    k', name, content := LastClean(pattern, us);
    DeliveredEndsFinal(init, us[..k]);
    SameGroup(us, k, k');
    UploadsSpellOne(last.filename, last.content, name, content, us[k..]);
  }

  // ----- Scanning for the delimiter -----

  /** The longest part of the delimiter that ends what was read is what has been matched, and the
      whole delimiter has not been read. */
  ghost predicate Scanned(r: Request, consumed: string)
    requires InContent(r)
  {
    var d := Delimiter(r.boundary);
    && !Occurs(d, consumed)
    && forall j :: 0 <= j <= |consumed| && consumed[j..] < d ==> |consumed| - j <= |Matched(r)|
  }

  lemma OnlyFirstIsReturn(boundary: string, at: nat)
    requires ValidBoundary(boundary) && 0 < at < |Delimiter(boundary)|
    ensures Delimiter(boundary)[at] != '\r'
  {
    assert Delimiter(boundary) == "\r\n--" + boundary;
  }

  /** A delimiter contains no part of itself but at its beginning. */
  lemma OwnPrefix(boundary: string, matched: string, suffix: string)
    requires ValidBoundary(boundary) && matched < Delimiter(boundary) && suffix < Delimiter(boundary) && suffix != ""
    requires |suffix| <= |matched| && matched[|matched| - |suffix|..] == suffix
    ensures suffix == matched
  {
    var at := |matched| - |suffix|;
    assert suffix[0] == Delimiter(boundary)[0] == '\r';
    assert matched[at] == suffix[0];
    if at > 0 { OnlyFirstIsReturn(boundary, at); }
  }

  /** What a suffix of the text read says about the match. */
  lemma SuffixIsMatched(r: Request, consumed: string, written: string, j: nat)
    requires InContent(r) && ValidBoundary(r.boundary) && consumed == written + Matched(r) && Scanned(r, consumed)
    requires j < |consumed| && consumed[j..] < Delimiter(r.boundary)
    ensures consumed[j..] == Matched(r)
  {
    MatchedGrows(r);
    var m := Matched(r);
    assert m < Delimiter(r.boundary);
    assert m[|m| - (|consumed| - j)..] == consumed[j..];
    OwnPrefix(r.boundary, m, consumed[j..]);
  }

  lemma OccursBefore(pattern: string, s: string, c: char, i: nat)
    requires OccursAt(pattern, s + [c], i) && i + |pattern| <= |s|
    ensures OccursAt(pattern, s, i)
  {
    assert s[i..i + |pattern|] == (s + [c])[i..i + |pattern|];
  }

  /** The delimiter is there as soon as its last byte is. */
  lemma DelimiterCompletes(r: Request, consumed: string, written: string, c: char, i: nat)
    requires InContent(r) && ValidBoundary(r.boundary) && consumed == written + Matched(r) && Scanned(r, consumed)
    requires OccursAt(Delimiter(r.boundary), consumed + [c], i)
    ensures c == Expected(r) && AtLast(r)
  {
    var d, all := Delimiter(r.boundary), consumed + [c];
    if i + |d| <= |consumed| { OccursBefore(d, consumed, c, i); }
    assert all[i..] == d && consumed[i..] == d[..|d| - 1];
    SuffixIsMatched(r, consumed, written, i);
    MatchedGrows(r);
    assert d == Matched(r) + [c];
    assert (Matched(r) + [Expected(r)])[|Matched(r)|] == d[|Matched(r)|];
  }

  /** A byte that does not complete the delimiter leaves the text without it. */
  lemma NoDelimiterYet(r: Request, consumed: string, written: string, c: char)
    requires InContent(r) && ValidBoundary(r.boundary) && consumed == written + Matched(r) && Scanned(r, consumed)
    requires c == Expected(r) ==> !AtLast(r)
    ensures !Occurs(Delimiter(r.boundary), consumed + [c])
  {
    hide Scanned, InContent, Matched, Expected, AtLast;
    if Occurs(Delimiter(r.boundary), consumed + [c]) {
      var i :| OccursAt(Delimiter(r.boundary), consumed + [c], i);
      DelimiterCompletes(r, consumed, written, c, i);
    }
  }

  lemma ScanStep(r: Request, n: Request, consumed: string, written: string, written': string, c: char)
    requires InContent(r) && InContent(n) && ValidBoundary(r.boundary) && n.boundary == r.boundary
    requires consumed == written + Matched(r) && consumed + [c] == written' + Matched(n) && Scanned(r, consumed)
    requires c == Expected(r) ==> !AtLast(r) && Matched(n) == Matched(r) + [c]
    requires c == '\r' ==> written' == consumed
    ensures Scanned(n, consumed + [c])
  {
    var d, all := Delimiter(r.boundary), consumed + [c];
    NoDelimiterYet(r, consumed, written, c);
    forall j | 0 <= j <= |all| && all[j..] < d ensures |all| - j <= |Matched(n)| {
      if j < |consumed| {
        assert all[j..] == consumed[j..] + [c];
        assert consumed[j..] < d;
        SuffixIsMatched(r, consumed, written, j);
        MatchedGrows(r);
        assert (Matched(r) + [c])[|Matched(r)|] == d[|Matched(r)|] == (Matched(r) + [Expected(r)])[|Matched(r)|];
      } else if j == |consumed| {
        assert all[j..] == [c] && c == d[0] == '\r';
        assert (consumed + Matched(n))[|consumed|..] == Matched(n);
      }
    }
  }
}
