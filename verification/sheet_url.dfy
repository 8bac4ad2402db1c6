/** The URL handling of `load_data_from_sheets`: a Google Sheets link is
    turned into the CSV export link of one of its sheets. Reading the CSV is
    a network call and is not part of this model; a failure of either kind
    makes the loader return an empty list. */
module SheetUrl {
  import opened Wrappers
  import opened Strings
  import DriveUrl

  /** `docs.google.com/spreadsheets`, written in pieces so that the verifier
      can look inside it. */
  const SheetsMarker := "docs.goo" + "gle.com/" + "spreadsh" + "eets"
  /** `https://docs.google.com/spreadsheets/d/` */
  const CsvBase := "https://" + SheetsMarker + "/d/"
  /** `/export?format=csv&gid=` */
  const CsvQuery := "/export?" + "format=c" + "sv&gid="

  /** Why no export link could be built: the link does not mention Google
      Sheets (the loader reports this itself), or it has no `/d/` and the
      `split('/d/')[1]` raises `IndexError` (caught by the loader). */
  datatype SheetError = NotASheetsUrl | MissingSheetId

  /** `r` starts at `start` and runs up to the first `/` or the end of `url`. */
  predicate SlashFreeRun(url: string, start: int, r: string) {
    && 0 <= start && start + |r| <= |url| && url[start..start + |r|] == r
    && (forall i :: 0 <= i < |r| ==> r[i] != '/')
    && (start + |r| == |url| || url[start + |r|] == '/')
  }

  /** `sheet_url.split('/d/')[1].split('/')[0]`: the text after the first
      `/d/` up to the next `/`. */
  function SheetId(url: string): (r: Option<string>)
    ensures r.None? <==> !Contains(url, "/d/")
    ensures r.Some? ==> SlashFreeRun(url, Find(url, "/d/").value + 3, r.value)
  {
    if Contains(url, "/d/") then
      HeadOfSecond(url, "/d/", '/');
      var r := SplitHead(SplitSecond(url, "/d/").value, "/");
      SlashStop(url, Find(url, "/d/").value + 3, r);
      Some(r)
    else None
  }

  /** A `/d/` ahead is a `/` ahead. */
  lemma SlashStop(url: string, start: int, r: string)
    requires StopsAt(url, "/d/", '/', start, r)
    ensures SlashFreeRun(url, start, r)
  {
    var end := start + |r|;
    if end < |url| && OccursAt(url, "/d/", end) {
      OccursStartsWith(url, "/d/", end);
    }
  }

  /** The `gid`: `'0'` when the link has no `gid=`, otherwise
      `sheet_url.split('gid=')[1].split('&')[0]`, the text after the first
      `gid=` up to the next `&`, the next `gid=` or the end. */
  function Gid(url: string): (g: string)
    ensures !Contains(url, "gid=") ==> g == "0"
    ensures Contains(url, "gid=") ==> StopsAt(url, "gid=", '&', Find(url, "gid=").value + 4, g)
  {
    if Contains(url, "gid=") then
      HeadOfSecond(url, "gid=", '&');
      SplitHead(SplitSecond(url, "gid=").value, "&")
    else "0"
  }

  /** The CSV link `load_data_from_sheets` hands to `pd.read_csv`. */
  function CsvExportUrl(url: string): (r: Result<string, SheetError>)
    ensures r == Failure(NotASheetsUrl) <==> !Contains(url, SheetsMarker)
    ensures r == Failure(MissingSheetId) <==> Contains(url, SheetsMarker) && !Contains(url, "/d/")
    ensures r.Success? ==>
      && Contains(url, SheetsMarker) && Contains(url, "/d/")
      && r.value == CsvBase + SheetId(url).value + CsvQuery + Gid(url)
  {
    if !Contains(url, SheetsMarker) then Failure(NotASheetsUrl)
    else match SheetId(url)
      case None => Failure(MissingSheetId)
      case Some(id) => Success(CsvBase + id + CsvQuery + Gid(url))
  }

  /** Where `/` sits in the export prefix, and that it holds no `=`. */
  lemma CsvBaseLandmarks(j: int)
    requires 0 <= j < |CsvBase|
    ensures |CsvBase| == 39 && CsvBase[8..36] == SheetsMarker && CsvBase[36..] == "/d/"
    ensures CsvBase[j] == '/' ==> j == 6 || j == 7 || j == 23 || j == 36 || j == 38
    ensures CsvBase[j] != '='
  {
  }

  /** A link that starts with the export prefix names Google Sheets, and its
      first `/d/` is the one in the prefix. */
  lemma ExportPrefix(url: string)
    requires |url| >= |CsvBase| && url[..|CsvBase|] == CsvBase
    ensures OccursAt(url, SheetsMarker, 8)
    ensures Find(url, "/d/") == Some(36)
  {
    CsvBaseLandmarks(0);
    assert url[8..36] == CsvBase[8..36];
    assert url[36..39] == CsvBase[36..39];
    assert OccursAt(url, "/d/", 36);
    forall q | 0 <= q < 36 ensures !OccursAt(url, "/d/", q) {
      assert url[q] == CsvBase[q] && url[q + 2] == CsvBase[q + 2];
      if url[q] == '/' {
        CsvBaseLandmarks(q);
        assert url[q..q + 3][2] != '/';
      } else {
        assert url[q..q + 3][0] != '/';
      }
    }
  }

  /** Two stretches starting at the same place and both running up to the
      first `c` (or the end) are the same. */
  lemma RunUpTo(s: string, start: nat, r: string, id: string, c: char)
    requires start + |r| <= |s| && s[start..start + |r|] == r && forall i :: 0 <= i < |r| ==> r[i] != c
    requires start + |r| == |s| || s[start + |r|] == c
    requires start + |id| < |s| && s[start..start + |id|] == id && forall i :: 0 <= i < |id| ==> id[i] != c
    requires s[start + |id|] == c
    ensures r == id
  {
  }

  /** In a link that starts like an export link, with an identifier followed
      by a `/`, the sheet id is that identifier. */
  lemma SheetIdOf(id: string, tail: string)
    requires DriveUrl.AllIdChars(id)
    requires |tail| > 0 && tail[0] == '/'
    ensures Contains(CsvBase + id + tail, SheetsMarker)
    ensures SheetId(CsvBase + id + tail) == Some(id)
  {
    var url := CsvBase + id + tail;
    CsvBaseLandmarks(0);
    assert url[..39] == CsvBase;
    ExportPrefix(url);
    assert url[39..39 + |id|] == id;
    assert url[39 + |id|] == '/';
    forall i | 0 <= i < |id| ensures id[i] != '/' {
      assert DriveUrl.IsIdChar(id[i]);
    }
    SheetIdAfter(url, id);
  }

  /** With the first `/d/` at 36, the sheet id is the `/`-free run from 39. */
  lemma SheetIdAfter(url: string, id: string)
    requires Find(url, "/d/") == Some(36)
    requires 39 + |id| < |url| && url[39..39 + |id|] == id && url[39 + |id|] == '/'
    requires forall i :: 0 <= i < |id| ==> id[i] != '/'
    ensures SheetId(url) == Some(id)
  {
    var r := SheetId(url).value;
    RunUpTo(url, 39, r, id, '/');
  }

  predicate NoEquals(s: string) {
    forall j :: 0 <= j < |s| ==> s[j] != '='
  }

  /** Neither the export prefix nor an identifier holds `=`. */
  lemma NoEqualsBeforeTail(id: string)
    requires DriveUrl.AllIdChars(id)
    ensures NoEquals(CsvBase + id)
  {
    CsvBaseLandmarks(0);
    forall j | 0 <= j < |CsvBase + id| ensures (CsvBase + id)[j] != '=' {
      if j < 39 {
        CsvBaseLandmarks(j);
      } else {
        assert (CsvBase + id)[j] == id[j - 39];
      }
    }
  }

  /** Every `=` of `tail` has three characters before it, the first not a `g`:
      no `gid=` ends inside `tail`. */
  predicate NoGidIn(tail: string) {
    forall e :: 0 <= e < |tail| && tail[e] == '=' ==> 3 <= e && tail[e - 3] != 'g'
  }

  /** A tail that ends in `gid=` and has no other `gid=`. */
  predicate GidTail(tail: string) {
    |tail| >= 4 && tail[|tail| - 4..] == "gid=" && NoGidIn(tail[..|tail| - 1])
  }

  predicate AllDigits(s: string) {
    forall i :: 0 <= i < |s| ==> '0' <= s[i] <= '9'
  }

  /** No `gid=` starts before the last three characters of `head + tail`
      when `head` has no `=` and `tail` no `gid=`, whatever follows. */
  lemma NoGidAfter(head: string, tail: string, rest: string)
    requires NoEquals(head) && NoGidIn(tail)
    ensures forall q :: 0 <= q && q + 3 < |head + tail| ==> !OccursAt(head + tail + rest, "gid=", q)
  {
    var url := head + tail + rest;
    forall q | 0 <= q && q + 3 < |head + tail| ensures !OccursAt(url, "gid=", q) {
      if url[q + 3] == '=' {
        var e := q + 3 - |head|;
        assert url[q + 3] == tail[e];
        assert url[q] == tail[e - 3];
        assert url[q..q + 4][0] != 'g';
      } else {
        assert url[q..q + 4][3] != '=';
      }
    }
  }

  /** With the first `gid=` at `at` followed by digits only, those digits are
      the gid. */
  lemma GidFromFirst(url: string, at: nat, gid: string)
    requires Find(url, "gid=") == Some(at) && at + 4 <= |url| && url[at + 4..] == gid && AllDigits(gid)
    ensures Gid(url) == gid
  {
    var g := Gid(url);
    var end := at + 4 + |g|;
    if end < |url| {
      assert url[end] == gid[|g|];
      if OccursAt(url, "gid=", end) {
        OccursStartsWith(url, "gid=", end);
      }
    }
  }

  /** After such a tail, the gid is the run of digits that follows it. */
  lemma GidAfterTail(head: string, tail: string, gid: string)
    requires NoEquals(head) && GidTail(tail) && AllDigits(gid)
    ensures Gid(head + tail + gid) == gid
  {
    var url := head + tail + gid;
    var at := |head| + |tail| - 4;
    var front := tail[..|tail| - 1];
    assert url == head + front + ("=" + gid);
    NoGidAfter(head, front, "=" + gid);
    assert url[at..at + 4] == tail[|tail| - 4..];
    assert OccursAt(url, "gid=", at);
    assert Find(url, "gid=") == Some(at);
    assert url[at + 4..] == gid;
    GidFromFirst(url, at, gid);
  }

  /** `/edit#gid=`, the tail of a link copied from the browser. */
  const EditGidTail := "/edit#gi" + "d="
  /** `/edit?usp=sharing`, the tail of a link from the share dialog. */
  const ShareTail := "/edit?us" + "p=sharin" + "g"

  lemma TailLandmarks()
    ensures GidTail(EditGidTail) && GidTail(CsvQuery)
    ensures |ShareTail| > 0 && ShareTail[0] == '/' && NoGidIn(ShareTail)
  {
  }

  /** A link copied from the browser gives the export link of the sheet it
      shows. */
  lemma BrowserLink(id: string, gid: string)
    requires DriveUrl.AllIdChars(id) && AllDigits(gid)
    ensures CsvExportUrl(CsvBase + id + EditGidTail + gid) == Success(CsvBase + id + CsvQuery + gid)
  {
    TailLandmarks();
    assert CsvBase + id + EditGidTail + gid == CsvBase + id + (EditGidTail + gid);
    SheetIdOf(id, EditGidTail + gid);
    NoEqualsBeforeTail(id);
    GidAfterTail(CsvBase + id, EditGidTail, gid);
  }

  /** An export link is its own export link. */
  lemma ExportLinkFixedPoint(id: string, gid: string)
    requires DriveUrl.AllIdChars(id) && AllDigits(gid)
    ensures CsvExportUrl(CsvBase + id + CsvQuery + gid) == Success(CsvBase + id + CsvQuery + gid)
  {
    TailLandmarks();
    assert CsvBase + id + CsvQuery + gid == CsvBase + id + (CsvQuery + gid);
    SheetIdOf(id, CsvQuery + gid);
    NoEqualsBeforeTail(id);
    GidAfterTail(CsvBase + id, CsvQuery, gid);
  }

  /** A link from the share dialog has no `gid=`: the first sheet, gid 0. */
  lemma ShareLink(id: string)
    requires DriveUrl.AllIdChars(id)
    ensures CsvExportUrl(CsvBase + id + ShareTail) == Success(CsvBase + id + CsvQuery + "0")
  {
    TailLandmarks();
    SheetIdOf(id, ShareTail);
    NoEqualsBeforeTail(id);
    NoGidAfter(CsvBase + id, ShareTail, "");
    assert CsvBase + id + ShareTail + "" == CsvBase + id + ShareTail;
    assert !Contains(CsvBase + id + ShareTail, "gid=");
  }
}
