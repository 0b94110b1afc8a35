/**
 * The capture page (src/pages/Index.tsx): the checks `captureScreenshot`
 * makes before it starts a capture, the state it keeps, the enable rule of
 * the Capture button and the name given to a downloaded screenshot.
 *
 * The URL check is a regular expression in the page. Here it is written
 * twice: once as the language the expression denotes (`MatchesPattern`,
 * an existential over the places where its groups begin and end) and once
 * as a deterministic recogniser (`Recognise`) that the validation uses;
 * `RecogniseMatches` proves the two agree on every string.
 */
module CapturePage {
  import opened Wrappers
  import opened Decimal

  // ------------------------------------------------------------ schemes

  predicate StartsWith(s: string, prefix: string) {
    |prefix| <= |s| && s[..|prefix|] == prefix
  }

  /** Starts with `http://` or `https://`, compared case-sensitively like `startsWith`. */
  predicate HasScheme(s: string) {
    StartsWith(s, "http://") || StartsWith(s, "https://")
  }

  /** `validUrl`: the input, with `https://` put in front when it has no scheme. */
  function NormalizeUrl(url: string): (v: string)
    ensures HasScheme(v)
    ensures HasScheme(url) ==> v == url
    ensures !HasScheme(url) ==> v == "https://" + url
  {
    if HasScheme(url) then url
    else
      assert ("https://" + url)[..8] == "https://";
      "https://" + url
  }

  /** The length of the leading `https://` or `http://`, 0 when there is none. */
  function SchemeLength(s: string): (n: nat)
    ensures n == 0 || n == 7 || n == 8
    ensures n <= |s|
    ensures n == 8 <==> StartsWith(s, "https://")
    ensures n == 7 <==> StartsWith(s, "http://")
    ensures n == 0 <==> !HasScheme(s)
  {
    SchemesExclusive(s);
    if StartsWith(s, "https://") then 8
    else if StartsWith(s, "http://") then 7
    else 0
  }

  /** No string starts with both schemes: the fifth character would be `s` and `:`. */
  lemma SchemesExclusive(s: string)
    ensures !(StartsWith(s, "https://") && StartsWith(s, "http://"))
  {
    if StartsWith(s, "https://") {
      assert s[4] == s[..8][4] == 's';
    }
  }

  /** A string that does not begin with `h` has no scheme. */
  lemma NoSchemeWithoutH(s: string)
    requires s == [] || s[0] != 'h'
    ensures !HasScheme(s)
  {
    if |s| >= 7 {
      assert s[..7][0] == s[0];
    }
    if |s| >= 8 {
      assert s[..8][0] == s[0];
    }
  }

  /** `replace(/^https?:\/\//, '')`: removes one leading scheme, if there is one. */
  function StripScheme(s: string): (r: string)
    ensures StartsWith(s, "https://") ==> r == s[8..]
    ensures StartsWith(s, "http://") ==> r == s[7..]
    ensures !HasScheme(s) ==> r == s
    ensures r == s[|s| - |r|..]
  {
    s[SchemeLength(s)..]
  }

  // ------------------------------------------------- character classes

  /** `\w` without the `u` flag: ASCII letters, digits and `_`. */
  predicate IsWordChar(c: char) {
    'A' <= c <= 'Z' || 'a' <= c <= 'z' || '0' <= c <= '9' || c == '_'
  }

  /** `[\w\-]`, the characters of the part before the dot. */
  predicate IsHostChar(c: char) {
    IsWordChar(c) || c == '-'
  }

  /** `[a-zA-Z]`. */
  predicate IsLetter(c: char) {
    'A' <= c <= 'Z' || 'a' <= c <= 'z'
  }

  /** The class of the trailing group: `/`, `\w`, `-`, `.`, `_`, `~`, `:`, `?`, `#`, `[`, `]`, `@`, `!`, `$`, `&`, `'`, `(`, `)`, `*`, `+`, `,`, `;`, `=` and `%`. */
  predicate IsPathChar(c: char) {
    IsWordChar(c) || c == '/' || c == '-' || c == '.' || c == '~' || c == ':' || c == '?'
    || c == '#' || c == '[' || c == ']' || c == '@' || c == '!' || c == '$' || c == '&'
    || c == '\'' || c == '(' || c == ')' || c == '*' || c == '+' || c == ',' || c == ';'
    || c == '=' || c == '%'
  }

  // --------------------------------------------- the pattern, declared

  /**
   * The pattern matches `s` with the optional scheme group ending at `i`,
   * the `[\w\-]+` group ending at `j`, the dot at `j`, the `[a-zA-Z]{2,63}`
   * group ending at `m` and the trailing class running to the end.
   */
  ghost predicate PatternSplit(s: string, i: int, j: int, m: int) {
    0 <= i < j < m <= |s|
    && (s[..i] == "" || s[..i] == "http://" || s[..i] == "https://")
    && (forall x :: i <= x < j ==> IsHostChar(s[x]))
    && s[j] == '.'
    && 2 <= m - j - 1 <= 63
    && (forall x :: j < x < m ==> IsLetter(s[x]))
    && (forall x :: m <= x < |s| ==> IsPathChar(s[x]))
  }

  /** `urlPattern.test(s)`. */
  ghost predicate MatchesPattern(s: string) {
    exists i, j, m :: PatternSplit(s, i, j, m)
  }

  // ------------------------------------------ the pattern, recognised

  /** The length of the longest prefix of `r` made of `[\w\-]` characters. */
  function HostRun(r: string): (k: nat)
    ensures k <= |r|
    ensures forall x :: 0 <= x < k ==> IsHostChar(r[x])
    ensures k < |r| ==> !IsHostChar(r[k])
    decreases |r|
  {
    if r == [] || !IsHostChar(r[0]) then 0 else 1 + HostRun(r[1..])
  }

  predicate AllPathChars(s: string) {
    forall x :: 0 <= x < |s| ==> IsPathChar(s[x])
  }

  /** The pattern after the optional scheme: host run, dot, two letters, path characters. */
  predicate RecogniseHost(r: string) {
    var k := HostRun(r);
    0 < k && k + 3 <= |r| && r[k] == '.' && IsLetter(r[k + 1]) && IsLetter(r[k + 2])
    && AllPathChars(r[k + 3..])
  }

  predicate Recognise(s: string) {
    RecogniseHost(s[SchemeLength(s)..])
  }

  /** A run of host characters ended by a character outside the class is the longest one. */
  lemma {:induction false} HostRunIs(r: string, k: nat)
    requires k < |r| && !IsHostChar(r[k])
    requires forall x :: 0 <= x < k ==> IsHostChar(r[x])
    ensures HostRun(r) == k
    decreases k
  {
    if k > 0 {
      assert IsHostChar(r[0]);
      HostRunIs(r[1..], k - 1);
    }
  }

  /** A match that does not use the scheme group cannot start with a scheme. */
  lemma NoSchemeSplit(s: string, j: int, m: int)
    requires PatternSplit(s, 0, j, m)
    ensures SchemeLength(s) == 0
  {
    SchemeHasNoDot(s);
  }

  /** Each scheme puts its ':' before any '.'. */
  lemma SchemeHasNoDot(s: string)
    ensures StartsWith(s, "https://") ==> s[5] == ':' && forall x :: 0 <= x < 5 ==> s[x] != '.'
    ensures StartsWith(s, "http://") ==> s[4] == ':' && forall x :: 0 <= x < 4 ==> s[x] != '.'
  {
    if StartsWith(s, "https://") {
      assert forall x :: 0 <= x < 8 ==> s[x] == s[..8][x];
    }
    if StartsWith(s, "http://") {
      assert forall x :: 0 <= x < 7 ==> s[x] == s[..7][x];
    }
  }

  /** Where the scheme group ends in a match is where the recogniser skips to. */
  lemma SplitScheme(s: string, i: int, j: int, m: int)
    requires PatternSplit(s, i, j, m)
    ensures SchemeLength(s) == i
  {
    if i == 0 {
      NoSchemeSplit(s, j, m);
    } else if s[..i] == "https://" {
      assert StartsWith(s, "https://");
    } else {
      assert s[..i] == "http://";
      assert s[4] == ':';
      assert !StartsWith(s, "https://");
    }
  }

  /** What the recogniser accepts, the pattern matches: the host run ends at the dot, two letters follow. */
  lemma RecogniseSound(s: string)
    requires Recognise(s)
    ensures MatchesPattern(s)
  {
    var i := SchemeLength(s);
    var r := s[i..];
    var k := HostRun(r);
    var j := i + k;
    assert s[..i] == "" || s[..i] == "http://" || s[..i] == "https://" by {
      if i == 8 {
        assert StartsWith(s, "https://");
      } else if i == 7 {
        assert StartsWith(s, "http://");
      }
    }
    forall x | i <= x < j ensures IsHostChar(s[x]) {
      assert s[x] == r[x - i];
    }
    var p := r[k + 3..];
    forall x | j + 3 <= x < |s| ensures IsPathChar(s[x]) {
      assert s[x] == p[x - j - 3];
    }
    assert PatternSplit(s, i, j, j + 3);
  }

  /** What the pattern matches, the recogniser accepts: a match fixes the scheme and the host run. */
  lemma RecogniseComplete(s: string, i: int, j: int, m: int)
    requires PatternSplit(s, i, j, m)
    ensures Recognise(s)
  {
    SplitScheme(s, i, j, m);
    var r := s[i..];
    var k := j - i;
    HostRunIs(r, k);
    assert r[k] == '.' && IsLetter(r[k + 1]) && IsLetter(r[k + 2]);
    var p := r[k + 3..];
    forall x | 0 <= x < |p| ensures IsPathChar(p[x]) {
      assert p[x] == s[j + 3 + x];
    }
  }

  /** The recogniser accepts exactly the strings the pattern matches. */
  lemma RecogniseMatches(s: string)
    ensures Recognise(s) <==> MatchesPattern(s)
  {
    if Recognise(s) {
      RecogniseSound(s);
    }
    if MatchesPattern(s) {
      var i, j, m :| PatternSplit(s, i, j, m);
      RecogniseComplete(s, i, j, m);
    }
  }

  // ---------------------------------------------------------- validation

  /** The two ways `captureScreenshot` turns an input down. */
  datatype CaptureError = UrlRequired | InvalidUrl

  /**
   * The checks at the start of `captureScreenshot`: an empty input is
   * missing; otherwise it is normalized and, with one scheme stripped,
   * tested against the pattern. On success the capture loads `validUrl`.
   */
  function ValidateUrl(url: string): (r: Result<string, CaptureError>)
    ensures r.Success? ==> r.value == NormalizeUrl(url) && HasScheme(r.value)
  {
    if url == "" then Failure(UrlRequired)
    else
      var validUrl := NormalizeUrl(url);
      if !Recognise(StripScheme(validUrl)) then Failure(InvalidUrl)
      else Success(validUrl)
  }

  /** Only the empty string is reported as missing; anything else, blanks included, goes on to the pattern. */
  lemma OnlyEmptyIsRequired(url: string)
    ensures ValidateUrl(url) == Failure(UrlRequired) <==> url == ""
    ensures url != "" ==> ValidateUrl(url).Success? || ValidateUrl(url) == Failure(InvalidUrl)
  {
  }

  /** The string tested is the input itself when it has no scheme, and the input less its scheme otherwise. */
  lemma TestedText(url: string)
    ensures StripScheme(NormalizeUrl(url)) == (if HasScheme(url) then url[SchemeLength(url)..] else url)
  {
    if !HasScheme(url) {
      var v := "https://" + url;
      assert StartsWith(v, "https://") by { assert v[..8] == "https://"; }
      assert v[8..] == url;
    }
  }

  /** An input is accepted exactly when it is non-empty and the pattern matches it after normalizing and stripping one scheme. */
  lemma ValidateMeansPattern(url: string)
    ensures ValidateUrl(url).Success? <==> url != "" && MatchesPattern(StripScheme(NormalizeUrl(url)))
  {
    RecogniseMatches(StripScheme(NormalizeUrl(url)));
  }

  /** Normalizing twice is normalizing once. */
  lemma NormalizeIdempotent(url: string)
    ensures NormalizeUrl(NormalizeUrl(url)) == NormalizeUrl(url)
  {
  }

  /** An input without a scheme is accepted, with `https://` in front, exactly when the pattern after the scheme group accepts it. */
  lemma ValidateWithoutScheme(url: string)
    requires url != "" && !HasScheme(url)
    ensures ValidateUrl(url) == if RecogniseHost(url) then Success("https://" + url) else Failure(InvalidUrl)
  {
    TestedText(url);
    NoSchemeWithoutH(url[..0]);
    assert url[..0] == [];
    assert !HasScheme(url) ==> SchemeLength(url) == 0;
  }

  /** The characters a scheme is written with. */
  predicate IsSchemeChar(c: char) {
    c == 'h' || c == 't' || c == 'p' || c == 's' || c == ':' || c == '/'
  }

  /** The scheme a string starts with is made of the characters of `https:/`. */
  lemma SchemeChars(s: string)
    ensures forall x :: 0 <= x < SchemeLength(s) ==> IsSchemeChar(s[x])
  {
    var n := SchemeLength(s);
    forall x | 0 <= x < n ensures IsSchemeChar(s[x]) {
      if n == 8 {
        assert s[..8] == "https://";
        assert s[x] == s[..8][x];
      } else {
        assert s[..7] == "http://";
        assert s[x] == s[..7][x];
      }
    }
  }

  /** A recognised string holds a dot: the one after the host run. */
  lemma RecognisedDot(t: string)
    ensures Recognise(t) ==> '.' in t
  {
    if Recognise(t) {
      var n := SchemeLength(t);
      var r := t[n..];
      assert t[n + HostRun(r)] == r[HostRun(r)];
    }
  }

  /** A recognised string holds no space: neither the scheme, the host run, the dot, the letters nor the path admit one. */
  lemma RecognisedNoSpace(t: string)
    ensures Recognise(t) ==> ' ' !in t
  {
    if Recognise(t) {
      var n := SchemeLength(t);
      var r := t[n..];
      var k := HostRun(r);
      var p := r[k + 3..];
      SchemeChars(t);
      assert AllPathChars(p);
      forall x | 0 <= x < |t| ensures t[x] != ' ' {
        if x >= n {
          var y := x - n;
          assert t[x] == r[y];
          if k + 3 <= y {
            assert r[y] == p[y - k - 3];
          }
        }
      }
    }
  }

  /** A character that is not in `https:/` lies after the scheme. */
  lemma AfterScheme(url: string, x: int)
    requires 0 <= x < |url| && !IsSchemeChar(url[x])
    ensures x >= SchemeLength(url)
  {
    SchemeChars(url);
  }

  /** No class of the pattern admits a space, so an input holding one is invalid. */
  lemma SpaceRejected(url: string)
    requires ' ' in url
    ensures ValidateUrl(url) == Failure(InvalidUrl)
  {
    var t := StripScheme(NormalizeUrl(url));
    TestedText(url);
    var x :| 0 <= x < |url| && url[x] == ' ';
    AfterScheme(url, x);
    var n := if HasScheme(url) then SchemeLength(url) else 0;
    assert t[x - n] == ' ';
    RecognisedNoSpace(t);
  }

  /** Without a dot there is nothing for the `\.` of the pattern to match: `localhost` is invalid. */
  lemma DotRequired(url: string)
    requires url != "" && '.' !in url
    ensures ValidateUrl(url) == Failure(InvalidUrl)
  {
    var t := StripScheme(NormalizeUrl(url));
    TestedText(url);
    assert forall y :: 0 <= y < |t| ==> t[y] in url by {
      var n := if HasScheme(url) then SchemeLength(url) else 0;
      assert forall y :: 0 <= y < |t| ==> t[y] == url[n + y];
    }
    RecognisedDot(t);
  }

  /** A bare domain gets a scheme and is accepted. */
  lemma BareDomainAccepted()
    ensures ValidateUrl("google.com") == Success("https://google.com")
  {
    var u := "google.com";
    assert "https://" + u == "https://google.com";
    NoSchemeWithoutH(u);
    ValidateWithoutScheme(u);
    DomainRecognised();
  }

  lemma DomainRecognised()
    ensures RecogniseHost("google.com")
  {
    var u := "google.com";
    assert forall x :: 0 <= x < 6 ==> IsHostChar(u[x]);
    HostRunIs(u, 6);
    assert u[9..] == "m";
  }

  /** An input made only of digits and dots, such as an IPv4 address, is invalid: after the first dot the pattern wants letters. */
  lemma NumericHostRejected(url: string)
    requires url != "" && forall x :: 0 <= x < |url| ==> '0' <= url[x] <= '9' || url[x] == '.'
    ensures ValidateUrl(url) == Failure(InvalidUrl)
  {
    NoSchemeWithoutH(url);
    ValidateWithoutScheme(url);
    var k := HostRun(url);
    if 0 < k && k + 3 <= |url| {
      assert !IsLetter(url[k + 1]);
    }
  }

  /** The loopback address is one such input. */
  lemma AddressRejected()
    ensures ValidateUrl("127.0.0.1") == Failure(InvalidUrl)
  {
    var u := "127.0.0.1";
    assert forall x :: 0 <= x < |u| ==> '0' <= u[x] <= '9' || u[x] == '.';
    NumericHostRejected(u);
  }

  lemma AddressHostRejected()
    ensures !RecogniseHost("127.0.0.1")
  {
    var u := "127.0.0.1";
    HostRunIs(u, 3);
    assert !IsLetter(u[4]);
  }

  /** A second label of one letter cannot start the `[a-zA-Z]{2,63}` group: `a.b.com` is invalid. */
  lemma ShortLabelRejected()
    ensures ValidateUrl("a.b.com") == Failure(InvalidUrl)
  {
    var u := "a.b.com";
    ShortLabelHostRejected();
    NoSchemeWithoutH(u);
    ValidateWithoutScheme(u);
  }

  lemma ShortLabelHostRejected()
    ensures !RecogniseHost("a.b.com")
  {
    var u := "a.b.com";
    HostRunIs(u, 1);
    assert !IsLetter(u[3]);
  }

  /** An input of blanks passes the emptiness check and fails the pattern. */
  lemma BlankRejected()
    ensures ValidateUrl("  ") == Failure(InvalidUrl)
  {
    assert "  "[0] == ' ';
    SpaceRejected("  ");
  }

  // ------------------------------------------------------------ download

  /** `screenshot-<milliseconds>.png`. */
  function DownloadFileName(now: int): (name: string)
    ensures |name| > |"screenshot-"| + |".png"|
  {
    "screenshot-" + IntToString(now) + ".png"
  }

  /** The name has the fixed prefix and extension, and the time between them reads back. */
  lemma DownloadFileNameParts(now: int)
    ensures StartsWith(DownloadFileName(now), "screenshot-")
    ensures DownloadFileName(now)[|DownloadFileName(now)| - 4..] == ".png"
    ensures ParseInteger(DownloadFileName(now)[11..|DownloadFileName(now)| - 4]) == Some(now)
  {
    var d := IntToString(now);
    var name := DownloadFileName(now);
    assert name[..11] == "screenshot-";
    assert name[11..|name| - 4] == d;
    IntToStringRoundTrip(now);
  }

  /** Different times give different names. */
  lemma DownloadFileNameInjective(a: int, b: int)
    requires DownloadFileName(a) == DownloadFileName(b)
    ensures a == b
  {
    DownloadFileNameParts(a);
    DownloadFileNameParts(b);
  }

  // ---------------------------------------------------------------- page

  /** The page's state: the text in the URL field, whether a capture runs and the object URL of the last screenshot. */
  class Page {
    var url: string
    var isCapturing: bool
    var screenshotUrl: string

    constructor ()
      ensures url == "" && !isCapturing && screenshotUrl == ""
    {
      url := "";
      isCapturing := false;
      screenshotUrl := "";
    }

    /** The Capture button is enabled when no capture runs and the field is not empty. */
    function CaptureEnabled(): (enabled: bool)
      reads this
      ensures enabled <==> !isCapturing && |url| > 0
    {
      !(isCapturing || url == "")
    }

    /** The URL field and the example buttons set the text. */
    method SetUrl(text: string)
      modifies this
      ensures url == text
      ensures isCapturing == old(isCapturing) && screenshotUrl == old(screenshotUrl)
    {
      url := text;
    }

    /**
     * The synchronous part of `captureScreenshot`: validate, and only when
     * both checks pass mark the capture as running. The outcome carries
     * the URL the capture loads, or why the input was turned down.
     */
    method CaptureScreenshot() returns (outcome: Result<string, CaptureError>)
      modifies this
      ensures outcome == ValidateUrl(url)
      ensures isCapturing == (outcome.Success? || old(isCapturing))
      ensures url == old(url) && screenshotUrl == old(screenshotUrl)
    {
      if url == "" {
        return Failure(UrlRequired);
      }
      var validUrl := url;
      if !StartsWith(url, "http://") && !StartsWith(url, "https://") {
        validUrl := "https://" + url;
      }
      if !Recognise(StripScheme(validUrl)) {
        return Failure(InvalidUrl);
      }
      isCapturing := true;
      outcome := Success(validUrl);
    }

    /**
     * The capture stops running: the `finally` after the drawing, the
     * iframe's error handler and the outer `catch`. This can happen before
     * the image callback below, and a new capture may start in between.
     */
    method CaptureFinished()
      modifies this
      ensures !isCapturing
      ensures url == old(url) && screenshotUrl == old(screenshotUrl)
    {
      isCapturing := false;
    }

    /** The `toBlob` callback with an image: its object URL becomes the screenshot, whatever else is running. */
    method BlobReady(objectUrl: string)
      requires objectUrl != ""
      modifies this
      ensures screenshotUrl == objectUrl && screenshotUrl != ""
      ensures url == old(url) && isCapturing == old(isCapturing)
    {
      screenshotUrl := objectUrl;
    }

    /** `downloadScreenshot`: nothing without a screenshot, otherwise the file name the link gets. */
    method DownloadScreenshot(now: int) returns (fileName: Option<string>)
      ensures fileName.None? <==> screenshotUrl == ""
      ensures fileName.Some? ==> fileName.value == DownloadFileName(now)
    {
      if screenshotUrl == "" {
        return None;
      }
      fileName := Some(DownloadFileName(now));
    }
  }
}
