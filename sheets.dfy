/** `convertGoogleSheetsUrl` (services/inventoryService.js): a link to a
    Google Sheets document is turned into the document's CSV export link;
    an Apps Script web-app link and every other link are fetched as given. */
module SheetsUrl {
  import opened Common

  const AppsScriptMarker: string := "script.google.com/macros"
  const SheetsMarker: string := "docs.google.com/spreadsheets"
  /** The literal part of `/\/spreadsheets\/d\/([a-zA-Z0-9-_]+)/`. */
  const IdPrefix: string := "/spreadsheets/d/"
  const ExportPrefix: string := "https://docs.google.com/spreadsheets/d/"
  const ExportSuffix: string := "/export?format=csv"

  /** The class `[a-zA-Z0-9-_]`: the `-` after the range `0-9` is literal. */
  predicate IsIdChar(c: char) {
    'a' <= c <= 'z' || 'A' <= c <= 'Z' || '0' <= c <= '9' || c == '-' || c == '_'
  }

  predicate IsId(id: string) {
    id != [] && forall i :: 0 <= i < |id| ==> IsIdChar(id[i])
  }

  /** The pattern matches at `p`: the prefix, then at least one id character. */
  predicate MatchesAt(url: string, p: nat) {
    OccursAt(url, IdPrefix, p) && p + |IdPrefix| < |url| && IsIdChar(url[p + |IdPrefix|])
  }

  /** The leftmost position at or after `from` where the pattern matches. */
  function FirstMatch(url: string, from: nat): (r: Option<nat>)
    ensures r.Some? ==> from <= r.value && MatchesAt(url, r.value)
    ensures r.Some? ==> forall q :: from <= q < r.value ==> !MatchesAt(url, q)
    ensures r.None? ==> forall q: nat :: from <= q ==> !MatchesAt(url, q)
    decreases |url| - from
  {
    if from + |IdPrefix| >= |url| then None
    else if MatchesAt(url, from) then Some(from)
    else FirstMatch(url, from + 1)
  }

  /** The greedy capture `([a-zA-Z0-9-_]+)` starting at `start`. */
  function IdRunFrom(url: string, start: nat): (n: nat)
    requires start <= |url|
    ensures start + n <= |url|
    ensures forall i :: start <= i < start + n ==> IsIdChar(url[i])
    ensures start + n == |url| || !IsIdChar(url[start + n])
    decreases |url| - start
  {
    if start < |url| && IsIdChar(url[start]) then 1 + IdRunFrom(url, start + 1) else 0
  }

  /** `FirstMatch` finds the match a caller can see is leftmost. */
  lemma {:induction false} FirstMatchIs(url: string, from: nat, p: nat)
    requires from <= p && MatchesAt(url, p)
    requires forall q :: from <= q < p ==> !MatchesAt(url, q)
    ensures FirstMatch(url, from) == Some(p)
    decreases p - from
  {
    if from < p {
      FirstMatchIs(url, from + 1, p);
    }
  }

  /** `IdRunFrom` is the length of a run a caller can see is maximal. */
  lemma {:induction false} IdRunFromIs(url: string, start: nat, k: nat)
    requires start + k <= |url|
    requires forall i :: start <= i < start + k ==> IsIdChar(url[i])
    requires start + k == |url| || !IsIdChar(url[start + k])
    ensures IdRunFrom(url, start) == k
    decreases k
  {
    if k > 0 {
      IdRunFromIs(url, start + 1, k - 1);
    }
  }

  /** The pattern matches first at `p`. */
  predicate Leftmost(url: string, p: nat) {
    MatchesAt(url, p) && forall q :: 0 <= q < p ==> !MatchesAt(url, q)
  }

  /** `id` is the whole capture of a match at `p`. */
  predicate CapturedAt(url: string, p: nat, id: string) {
    var start := p + |IdPrefix|;
    IsId(id) && start + |id| <= |url| && url[start..start + |id|] == id &&
    (start + |id| == |url| || !IsIdChar(url[start + |id|]))
  }

  /** `url.match(...)?.[1]`: the capture of the leftmost match. */
  function SheetId(url: string): Option<string> {
    match FirstMatch(url, 0)
    case None => None
    case Some(p) =>
      var start := p + |IdPrefix|;
      Some(url[start..start + IdRunFrom(url, start)])
  }

  /** There is a capture exactly when the pattern matches somewhere, and it
      is the whole id run of the leftmost match. */
  lemma SheetIdMeaning(url: string)
    ensures SheetId(url).None? <==> forall q: nat :: !MatchesAt(url, q)
    ensures SheetId(url).Some? ==> exists p: nat :: Leftmost(url, p) && CapturedAt(url, p, SheetId(url).value)
  {
    match FirstMatch(url, 0)
    case None =>
    case Some(p) =>
      var start := p + |IdPrefix|;
      assert SheetId(url) == Some(url[start..start + IdRunFrom(url, start)]);
      CaptureOfMatch(url, p);
      assert Leftmost(url, p);
  }

  /** Where the pattern matches, the greedy run after the prefix is a
      whole capture. */
  lemma CaptureOfMatch(url: string, p: nat)
    requires MatchesAt(url, p)
    ensures var start := p + |IdPrefix|;
      CapturedAt(url, p, url[start..start + IdRunFrom(url, start)])
  {
    var start := p + |IdPrefix|;
    var n := IdRunFrom(url, start);
    assert n > 0 by {
      assert IsIdChar(url[start]);
    }
    var id := url[start..start + n];
    forall i | 0 <= i < |id|
      ensures IsIdChar(id[i])
    {
      assert id[i] == url[start + i];
    }
  }

  function ExportUrl(id: string): string {
    ExportPrefix + id + ExportSuffix
  }

  /** `convertGoogleSheetsUrl(url)`; the empty string stands for every falsy
      argument. */
  function ConvertGoogleSheetsUrl(url: string): (r: string)
    ensures url == [] <==> r == []
  {
    if url == [] then ""
    else if Contains(url, AppsScriptMarker) then url
    else if Contains(url, SheetsMarker) then
      match SheetId(url)
      case None => url
      case Some(id) => ExportUrl(id)
    else url
  }

  /** An Apps Script link, and a link that does not mention a spreadsheet, are
      fetched as given. */
  lemma PassThrough(url: string)
    requires Contains(url, AppsScriptMarker) || !Contains(url, SheetsMarker)
    ensures ConvertGoogleSheetsUrl(url) == url
  {
  }

  /** A spreadsheet link that is not an Apps Script link is rewritten to the
      export link of the id captured at the leftmost `/spreadsheets/d/`
      followed by an id character; without one it is fetched as given. */
  lemma SheetLinkIsExported(url: string, p: nat, id: string)
    requires Contains(url, SheetsMarker) && !Contains(url, AppsScriptMarker)
    requires Leftmost(url, p) && CapturedAt(url, p, id)
    ensures ConvertGoogleSheetsUrl(url) == ExportUrl(id)
  {
    SheetIdIs(url, p, id);
  }

  /** The capture a caller can see at the leftmost match is the one read. */
  lemma SheetIdIs(url: string, p: nat, id: string)
    requires Leftmost(url, p) && CapturedAt(url, p, id)
    ensures SheetId(url) == Some(id)
  {
    var start := p + |IdPrefix|;
    FirstMatchIs(url, 0, p);
    forall i | start <= i < start + |id| ensures IsIdChar(url[i]) {
      assert url[i] == url[start..start + |id|][i - start];
    }
    IdRunFromIs(url, start, |id|);
  }

  lemma SheetLinkWithoutId(url: string)
    requires Contains(url, SheetsMarker)
    requires forall q: nat :: !MatchesAt(url, q)
    ensures ConvertGoogleSheetsUrl(url) == url
  {
    SheetIdMeaning(url);
  }

  /** The characters of an export link: the fixed prefix, the id, the fixed
      suffix. */
  lemma ExportUrlChars(id: string, i: nat)
    requires i < |ExportUrl(id)|
    ensures i < |ExportPrefix| ==> ExportUrl(id)[i] == ExportPrefix[i]
    ensures |ExportPrefix| <= i < |ExportPrefix| + |id| ==> ExportUrl(id)[i] == id[i - |ExportPrefix|]
    ensures |ExportPrefix| + |id| <= i ==> ExportUrl(id)[i] == ExportSuffix[i - |ExportPrefix| - |id|]
  {
  }

  lemma ExportPrefixDots()
    ensures forall i :: 0 <= i < |ExportPrefix| && i != 12 && i != 19 ==> ExportPrefix[i] != '.'
  {
  }

  lemma ExportSuffixHasNoDot()
    ensures forall i :: 0 <= i < |ExportSuffix| ==> ExportSuffix[i] != '.'
  {
  }

  /** The only dots of an export link are the two of `docs.google.com`. */
  lemma ExportUrlDots(id: string, i: nat)
    requires IsId(id) && i < |ExportUrl(id)| && i != 12 && i != 19
    ensures ExportUrl(id)[i] != '.'
  {
    ExportUrlChars(id, i);
    ExportPrefixDots();
    ExportSuffixHasNoDot();
  }

  /** An export link never looks like an Apps Script link: the marker has two
      dots seven apart, and the only such pair in an export link sits where
      the marker would have to start with `/`. */
  lemma ExportUrlIsNotAppsScript(id: string)
    requires IsId(id)
    ensures !Contains(ExportUrl(id), AppsScriptMarker)
  {
    var u := ExportUrl(id);
    var m := AppsScriptMarker;
    forall p: nat | p + |m| <= |u| ensures !OccursAt(u, m, p) {
      NoMarkerAt(id, p);
    }
  }

  lemma NoMarkerAt(id: string, p: nat)
    requires IsId(id) && p + |AppsScriptMarker| <= |ExportUrl(id)|
    ensures !OccursAt(ExportUrl(id), AppsScriptMarker, p)
  {
    var u := ExportUrl(id);
    var m := AppsScriptMarker;
    if p == 6 {
      ExportUrlChars(id, 6);
      MismatchAt(u, m, p, 0);
    } else if p == 13 {
      ExportUrlDots(id, 26);
      MismatchAt(u, m, p, 13);
    } else {
      ExportUrlDots(id, p + 6);
      MismatchAt(u, m, p, 6);
    }
  }

  lemma NoMatchInExportPrefix()
    ensures forall q :: 0 <= q < 23 ==> ExportPrefix[q] != '/' || ExportPrefix[q + 1] != 's'
  {
  }

  /** The pattern first matches an export link right after the host. */
  lemma ExportUrlFirstMatch(id: string)
    requires IsId(id)
    ensures FirstMatch(ExportUrl(id), 0) == Some(23)
  {
    forall q | 0 <= q < 23 ensures !MatchesAt(ExportUrl(id), q) {
      NoMatchBeforeHost(id, q);
    }
    MatchAfterHost(id);
    FirstMatchIs(ExportUrl(id), 0, 23);
  }

  /** `/spreadsheets/d/` and a first id character follow the host. */
  lemma MatchAfterHost(id: string)
    requires IsId(id)
    ensures MatchesAt(ExportUrl(id), 23)
  {
    var u := ExportUrl(id);
    assert u[23..39] == IdPrefix;
    ExportUrlChars(id, 39);
  }

  /** No `/s` pair starts before the path. */
  lemma NoMatchBeforeHost(id: string, q: nat)
    requires IsId(id) && q < 23
    ensures !MatchesAt(ExportUrl(id), q)
  {
    var u := ExportUrl(id);
    NoMatchInExportPrefix();
    ExportUrlChars(id, q);
    ExportUrlChars(id, q + 1);
    if u[q] != '/' {
      MismatchAt(u, IdPrefix, q, 0);
    } else {
      MismatchAt(u, IdPrefix, q, 1);
    }
  }

  /** The id is read back whole from an export link: it ends at the `/` of
      the suffix. */
  lemma ExportUrlSheetId(id: string)
    requires IsId(id)
    ensures SheetId(ExportUrl(id)) == Some(id)
  {
    var u := ExportUrl(id);
    forall i | 39 <= i < 39 + |id| ensures IsIdChar(u[i]) {
      ExportUrlChars(id, i);
    }
    ExportUrlChars(id, 39 + |id|);
    IdRunFromIs(u, 39, |id|);
    ExportUrlFirstMatch(id);
    assert u[39..39 + |id|] == id;
  }

  /** An export link is fetched as given. */
  lemma ExportUrlIsFixed(id: string)
    requires IsId(id)
    ensures ConvertGoogleSheetsUrl(ExportUrl(id)) == ExportUrl(id)
  {
    ExportUrlIsNotAppsScript(id);
    ExportUrlMentionsSheets(id);
    ExportUrlSheetId(id);
  }

  /** The host and path of the prefix spell the spreadsheet marker. */
  lemma ExportUrlMentionsSheets(id: string)
    ensures OccursAt(ExportUrl(id), SheetsMarker, 8)
  {
    var u := ExportUrl(id);
    assert u == ExportPrefix + (id + ExportSuffix);
    assert u[..|ExportPrefix|] == ExportPrefix;
    assert u[8..36] == ExportPrefix[8..36];
    SheetsMarkerInPrefix();
  }

  lemma SheetsMarkerInPrefix()
    ensures ExportPrefix[8..36] == SheetsMarker
  {
    forall i | 0 <= i < |SheetsMarker| ensures ExportPrefix[8 + i] == SheetsMarker[i] {
    }
    assert forall i :: 0 <= i < |SheetsMarker| ==> ExportPrefix[8..36][i] == ExportPrefix[8 + i];
  }

  /** Converting twice is converting once. */
  lemma ConvertIsIdempotent(url: string)
    ensures ConvertGoogleSheetsUrl(ConvertGoogleSheetsUrl(url)) == ConvertGoogleSheetsUrl(url)
  {
    if ConvertGoogleSheetsUrl(url) != url {
      SheetIdMeaning(url);
      var id := SheetId(url).value;
      var p: nat :| Leftmost(url, p) && CapturedAt(url, p, id);
      ExportUrlIsFixed(id);
    }
  }
}
