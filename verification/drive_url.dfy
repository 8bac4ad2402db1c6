/** `convert_drive_url`: rewrites a Google Drive sharing link into a direct
    download link, trying three fixed patterns in order. Each pattern is a
    literal prefix followed by the group `([a-zA-Z0-9_-]+)`; `re.search` returns
    the leftmost place where the prefix is followed by at least one such
    character, and the greedy group takes the whole run. */
module DriveUrl {
  import opened Wrappers
  import opened Strings

  predicate IsIdChar(c: char) {
    'a' <= c <= 'z' || 'A' <= c <= 'Z' || '0' <= c <= '9' || c == '_' || c == '-'
  }

  predicate AllIdChars(s: string) {
    forall i :: 0 <= i < |s| ==> IsIdChar(s[i])
  }

  /** `drive\.google\.com/file/d/`, `drive\.google\.com/open\?id=` and `id=`,
      with the regular-expression escapes removed. */
  const FilePattern := "drive.google.com/file/d/"
  const OpenPattern := "drive.google.com/open?id="
  const IdPattern := "id="
  const Patterns := [FilePattern, OpenPattern, IdPattern]

  /** `https://drive.google.com/uc?export=download&id=`, written in pieces so
      that the verifier can look inside it. */
  const DownloadBase := "https://" + "drive.go" + "ogle.com" + "/uc?expo" + "rt=downl" + "oad&id="

  /** The regular expression `prefix([a-zA-Z0-9_-]+)` matches at `p`. */
  predicate MatchesAt(url: string, prefix: string, p: int) {
    OccursAt(url, prefix, p) && p + |prefix| < |url| && IsIdChar(url[p + |prefix|])
  }

  /** The length of the run of identifier characters starting at `i`. */
  function IdRun(s: string, i: nat): (n: nat)
    requires i <= |s|
    ensures i + n <= |s|
    ensures forall j :: i <= j < i + n ==> IsIdChar(s[j])
    ensures i + n == |s| || !IsIdChar(s[i + n])
    decreases |s| - i
  {
    if i < |s| && IsIdChar(s[i]) then 1 + IdRun(s, i + 1) else 0
  }

  /** The leftmost match at or after `p`. */
  function FirstMatchFrom(url: string, prefix: string, p: nat): (r: Option<nat>)
    ensures r.Some? ==> p <= r.value && MatchesAt(url, prefix, r.value)
    ensures forall q :: p <= q && (r.None? || q < r.value) ==> !MatchesAt(url, prefix, q)
    decreases |url| - p
  {
    if p + |prefix| >= |url| then None
    else if MatchesAt(url, prefix, p) then Some(p)
    else FirstMatchFrom(url, prefix, p + 1)
  }

  /** Where `re.search` finds the pattern, if anywhere. */
  function FirstMatch(url: string, prefix: string): (r: Option<nat>)
    ensures r.Some? ==> MatchesAt(url, prefix, r.value)
    ensures r.Some? ==> forall q :: 0 <= q < r.value ==> !MatchesAt(url, prefix, q)
    ensures r.None? ==> forall q :: !MatchesAt(url, prefix, q)
  {
    FirstMatchFrom(url, prefix, 0)
  }

  /** `match.group(1)` for a match at `p`: the whole run of identifier
      characters after the prefix. */
  function Capture(url: string, prefix: string, p: nat): (id: string)
    requires MatchesAt(url, prefix, p)
    ensures |id| > 0 && AllIdChars(id)
    ensures var start := p + |prefix|;
      && start + |id| <= |url| && url[start..start + |id|] == id
      && (start + |id| == |url| || !IsIdChar(url[start + |id|]))
  {
    var start := p + |prefix|;
    url[start..start + IdRun(url, start)]
  }

  /** The loop over the patterns from the `k`-th on. */
  function ConvertFrom(url: string, k: nat): string
    requires k <= |Patterns|
    decreases |Patterns| - k
  {
    if k == |Patterns| then url
    else
      match FirstMatch(url, Patterns[k])
      case Some(p) => DownloadBase + Capture(url, Patterns[k], p)
      case None => ConvertFrom(url, k + 1)
  }

  /** The first pattern that matches decides the identifier; a link none of
      them matches comes back unchanged. */
  function ConvertDriveUrl(url: string): (r: string)
    ensures (forall k :: 0 <= k < |Patterns| ==> FirstMatch(url, Patterns[k]).None?) ==> r == url
    ensures forall k :: 0 <= k < |Patterns| && FirstMatch(url, Patterns[k]).Some?
                        && (forall j :: 0 <= j < k ==> FirstMatch(url, Patterns[j]).None?)
                        ==> r == DownloadBase + Capture(url, Patterns[k], FirstMatch(url, Patterns[k]).value)
    ensures r == url || (|r| > |DownloadBase| && r[..|DownloadBase|] == DownloadBase && AllIdChars(r[|DownloadBase|..]))
  {
    ConvertFrom(url, 0)
  }

  /** The capture at a match is any run of identifier characters after the
      prefix that ends where the run of the text ends. */
  lemma CaptureIs(url: string, prefix: string, p: nat, id: string)
    requires MatchesAt(url, prefix, p) && AllIdChars(id)
    requires var start := p + |prefix|;
      && start + |id| <= |url| && url[start..start + |id|] == id
      && (start + |id| == |url| || !IsIdChar(url[start + |id|]))
    ensures Capture(url, prefix, p) == id
  {
    var c := Capture(url, prefix, p);
  }

  /** No match can start before `k` when the first character of the prefix
      does not occur there. */
  lemma NoMatchBefore(url: string, prefix: string, k: nat)
    requires |prefix| > 0 && k <= |url|
    requires prefix[0] !in url[..k]
    ensures forall q :: 0 <= q < k ==> !MatchesAt(url, prefix, q)
  {
    forall q | 0 <= q < k && MatchesAt(url, prefix, q) ensures false {
      OccursStartsWith(url, prefix, q);
    }
  }

  /** The file pattern ends in `/`, which cannot occur in an identifier, and
      holds an `f`: after a prefix without `f` it cannot match. */
  lemma NoFileMatch(prefix: string, id: string)
    requires 'f' !in prefix && AllIdChars(id)
    ensures FirstMatch(prefix + id, FilePattern) == None
  {
    var url := prefix + id;
    forall p | 0 <= p && p + 24 <= |url| ensures !OccursAt(url, FilePattern, p) {
      if url[p + 23] == '/' {
        assert p + 23 < |prefix|;
        assert url[p + 17] == prefix[p + 17] && prefix[p + 17] in prefix;
        assert url[p..p + 24][17] != FilePattern[17];
      } else {
        assert url[p..p + 24][23] != FilePattern[23];
      }
    }
  }

  const Https := "https://"

  /** A pattern preceded by text that lacks its first character, and followed
      by an identifier and then a non-identifier character (or nothing), is
      first matched right after that text and captures the identifier. */
  lemma PrefixedLink(lead: string, pattern: string, id: string, rest: string)
    requires |pattern| > 0 && pattern[0] !in lead
    requires |id| > 0 && AllIdChars(id)
    requires rest == [] || !IsIdChar(rest[0])
    ensures var url := lead + pattern + id + rest;
      && FirstMatch(url, pattern) == Some(|lead|)
      && Capture(url, pattern, |lead|) == id
  {
    var url := lead + pattern + id + rest;
    var start := |lead| + |pattern|;
    assert url[..|lead|] == lead;
    assert url[|lead|..start] == pattern;
    assert url[start..start + |id|] == id;
    assert start + |id| < |url| ==> url[start + |id|] == rest[0];
    FirstMatchAfter(url, lead, pattern);
    CaptureIs(url, pattern, |lead|, id);
  }

  /** A match right after a lead that lacks the pattern's first character is
      the first one. */
  lemma FirstMatchAfter(url: string, lead: string, pattern: string)
    requires |pattern| > 0 && pattern[0] !in lead
    requires |lead| <= |url| && url[..|lead|] == lead
    requires MatchesAt(url, pattern, |lead|)
    ensures FirstMatch(url, pattern) == Some(|lead|)
  {
    NoMatchBefore(url, pattern, |lead|);
  }

  /** A link of the form `https://drive.google.com/file/d/<id>` followed by
      anything that does not continue the identifier becomes the download link
      for `<id>`. */
  lemma FileLink(id: string, rest: string)
    requires |id| > 0 && AllIdChars(id)
    requires rest == [] || !IsIdChar(rest[0])
    ensures ConvertDriveUrl(Https + FilePattern + id + rest) == DownloadBase + id
  {
    assert 'd' !in Https;
    PrefixedLink(Https, FilePattern, id, rest);
  }

  lemma OpenPrefixLacksF()
    ensures 'f' !in Https + OpenPattern
  {
    assert Https + OpenPattern == "https://" + "drive.go" + "ogle.com" + "/open?id" + "=";
  }

  /** A link of the form `https://drive.google.com/open?id=<id>` becomes the
      download link for `<id>`. */
  lemma OpenLink(id: string)
    requires |id| > 0 && AllIdChars(id)
    ensures ConvertDriveUrl(Https + OpenPattern + id) == DownloadBase + id
  {
    var prefix := Https + OpenPattern;
    OpenPrefixLacksF();
    NoFileMatch(prefix, id);
    assert 'd' !in Https;
    PrefixedLink(Https, OpenPattern, id, []);
    assert Https + OpenPattern + id + [] == prefix + id;
  }

  /** Where the characters that the three patterns hinge on sit in the
      download prefix. */
  lemma DownloadBaseLandmarks()
    ensures |DownloadBase| == 47 && 'f' !in DownloadBase
    ensures DownloadBase[6] == '/' && DownloadBase[32] == 'r' && DownloadBase[44..] == IdPattern
  {
  }

  /** The only `?` of the download prefix is the one before `export`. */
  lemma DownloadBaseQuery(j: int)
    requires 0 <= j < |DownloadBase| && DownloadBase[j] == '?'
    ensures j == 27
  {
  }

  /** The download prefix has `=` only after `export` and at its end. */
  lemma DownloadBaseEquals(j: int)
    requires 0 <= j < |DownloadBase| && DownloadBase[j] == '='
    ensures j == 34 || j == 46
  {
  }

  /** A download link is left as it is: the file and open patterns cannot
      match it, and the `id=` pattern captures the identifier it ends with. */
  lemma DownloadLink(id: string)
    requires |id| > 0 && AllIdChars(id)
    ensures ConvertDriveUrl(DownloadBase + id) == DownloadBase + id
  {
    var url := DownloadBase + id;
    DownloadBaseLandmarks();
    NoFileMatch(DownloadBase, id);
    forall p | 0 <= p && p + 25 <= |url| ensures !OccursAt(url, OpenPattern, p) {
      if url[p + 24] == '=' {
        assert p + 24 < 47;
        DownloadBaseEquals(p + 24);
        assert url[p + 21] == DownloadBase[p + 21];
        if url[p + 21] == '?' {
          DownloadBaseQuery(p + 21);
        }
        assert url[p..p + 25][21] != OpenPattern[21];
      } else {
        assert url[p..p + 25][24] != OpenPattern[24];
      }
    }
    assert FirstMatch(url, OpenPattern) == None;
    forall q | 0 <= q < 44 ensures !OccursAt(url, IdPattern, q) {
      if url[q + 2] == '=' {
        DownloadBaseEquals(q + 2);
        assert q == 32;
        assert url[q..q + 3][0] != IdPattern[0];
      } else {
        assert url[q..q + 3][2] != IdPattern[2];
      }
    }
    assert url[44..47] == IdPattern;
    assert url[47] == id[0];
    assert MatchesAt(url, IdPattern, 44);
    assert FirstMatch(url, IdPattern) == Some(44);
    assert url[47..] == id;
    CaptureIs(url, IdPattern, 44, id);
  }

  /** Converting twice is converting once. */
  lemma ConvertIdempotent(url: string)
    ensures ConvertDriveUrl(ConvertDriveUrl(url)) == ConvertDriveUrl(url)
  {
    var r := ConvertDriveUrl(url);
    if r != url {
      var id := r[|DownloadBase|..];
      assert r == DownloadBase + id;
      DownloadLink(id);
    }
  }
}
