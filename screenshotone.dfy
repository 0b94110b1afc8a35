/**
 * The request-URL compiler of the screenshot client (`ScreenshotOneAPI`).
 *
 * `GenerateScreenshotUrl` appends the query parameters one by one, in a fixed
 * order, to an initially empty list and writes the serialized list after the
 * fixed endpoint. Numbers fall back to their default through JavaScript's
 * `||`, so an absent value and an explicit 0 both take the default. The
 * `block_*` options and `full_page` are appended unless explicitly `false`;
 * `omit_background`, `dark_mode` and `reduce_motion` only when `true`.
 *
 * The specification is a table of seventeen slots, one per `append` in the
 * source, each with its name, its value and whether its guard lets it
 * through; `QueryParams` keeps the appended ones in order. General lemmas
 * about such tables give lookup, order, uniqueness and count.
 */
module ScreenshotOne {
  import opened Wrappers
  import opened Decimal
  import opened ImageFormat
  import opened FormUrlEncoded

  /** The options record; every field but `url` may be absent. Numbers are integral. */
  datatype Options = Options(
    url: string,
    viewportWidth: Option<int>,
    viewportHeight: Option<int>,
    deviceScaleFactor: Option<int>,
    format: Option<Format>,
    imageQuality: Option<int>,
    blockAds: Option<bool>,
    blockCookieBanners: Option<bool>,
    blockBanners: Option<bool>,
    blockTrackers: Option<bool>,
    delay: Option<int>,
    timeout: Option<int>,
    fullPage: Option<bool>,
    omitBackground: Option<bool>,
    darkMode: Option<bool>,
    reduceMotion: Option<bool>)

  const BaseUrl: string := "https://api.screenshotone.com/take"

  /** Every parameter name the builder can append, in the order it appends them. */
  const ParamOrder: seq<string> := [
    "access_key", "url", "viewport_width", "viewport_height", "device_scale_factor",
    "format", "image_quality", "block_ads", "block_cookie_banners", "block_banners",
    "block_trackers", "delay", "timeout", "full_page", "omit_background", "dark_mode",
    "reduce_motion"]

  /** JavaScript `x || fallback` for an optional number: `undefined` and 0 are falsy. */
  function NumberOr(x: Option<int>, fallback: int): int {
    if x.Some? && x.value != 0 then x.value else fallback
  }

  /** One `append` of the builder: the parameter and whether its guard lets it through. */
  datatype Slot = Slot(name: string, value: string, appended: bool)

  /** All seventeen appends, in source order. */
  function Slots(accessKey: string, o: Options): (t: seq<Slot>)
    ensures |t| == |ParamOrder|
    ensures forall i :: 0 <= i < |t| ==> t[i].name == ParamOrder[i]
  {
    [ // required
      Slot("access_key", accessKey, true),
      Slot("url", o.url, true),
      // numbers and format, with defaults
      Slot("viewport_width", IntToString(NumberOr(o.viewportWidth, 1920)), true),
      Slot("viewport_height", IntToString(NumberOr(o.viewportHeight, 1080)), true),
      Slot("device_scale_factor", IntToString(NumberOr(o.deviceScaleFactor, 2)), true),
      Slot("format", if o.format.Some? then FormatName(o.format.value) else "png", true),
      Slot("image_quality", IntToString(NumberOr(o.imageQuality, 100)), true),
      // privacy: on unless explicitly false
      Slot("block_ads", "true", o.blockAds != Some(false)),
      Slot("block_cookie_banners", "true", o.blockCookieBanners != Some(false)),
      Slot("block_banners", "true", o.blockBanners != Some(false)),
      Slot("block_trackers", "true", o.blockTrackers != Some(false)),
      // timing
      Slot("delay", IntToString(NumberOr(o.delay, 0)), true),
      Slot("timeout", IntToString(NumberOr(o.timeout, 60)), true),
      // page: full_page on unless explicitly false, the others only when true
      Slot("full_page", "true", o.fullPage != Some(false)),
      Slot("omit_background", "true", o.omitBackground == Some(true)),
      Slot("dark_mode", "true", o.darkMode == Some(true)),
      Slot("reduce_motion", "true", o.reduceMotion == Some(true)) ]
  }

  /** What one slot contributes: its parameter if the guard lets it through, else nothing. */
  function Emit(s: Slot): seq<Pair> {
    if s.appended then [(s.name, s.value)] else []
  }

  /** The parameters a table of slots produces: the appended ones, in order. */
  function Appended(slots: seq<Slot>): seq<Pair>
    decreases |slots|
  {
    if slots == [] then [] else Emit(slots[0]) + Appended(slots[1..])
  }

  /** The query parameters `generateScreenshotUrl` builds for `o`. */
  function QueryParams(accessKey: string, o: Options): seq<Pair> {
    Appended(Slots(accessKey, o))
  }

  /** The URL `generateScreenshotUrl` returns. */
  function ScreenshotUrl(accessKey: string, o: Options): string {
    BaseUrl + "?" + Serialize(QueryParams(accessKey, o))
  }

  /** `URLSearchParams.prototype.get`: the value of the first pair with that name. */
  function Lookup(ps: seq<Pair>, name: string): Option<string>
    decreases |ps|
  {
    if ps == [] then None
    else if ps[0].0 == name then Some(ps[0].1)
    else Lookup(ps[1..], name)
  }

  /** `get` finds nothing exactly when no pair has the name, and what it finds is a pair's value. */
  lemma {:induction false} LookupSpec(ps: seq<Pair>, name: string)
    ensures Lookup(ps, name).None? <==> forall i :: 0 <= i < |ps| ==> ps[i].0 != name
    ensures Lookup(ps, name).Some? ==> exists i :: 0 <= i < |ps| && ps[i] == (name, Lookup(ps, name).value)
    decreases |ps|
  {
    if ps != [] && ps[0].0 != name {
      LookupSpec(ps[1..], name);
      if Lookup(ps, name).Some? {
        var i :| 0 <= i < |ps[1..]| && ps[1..][i] == (name, Lookup(ps, name).value);
        assert ps[i + 1] == ps[1..][i];
      }
    }
  }

  function Names(ps: seq<Pair>): (ns: seq<string>)
    ensures |ns| == |ps|
  {
    seq(|ps|, i requires 0 <= i < |ps| => ps[i].0)
  }

  predicate Distinct(xs: seq<string>) {
    forall i, j :: 0 <= i < j < |xs| ==> xs[i] != xs[j]
  }

  /** `xs` can be obtained from `ys` by deleting elements. */
  predicate IsSubsequence(xs: seq<string>, ys: seq<string>)
    decreases |ys|
  {
    if xs == [] then true
    else if ys == [] then false
    else IsSubsequence(xs, ys[1..]) || (xs[0] == ys[0] && IsSubsequence(xs[1..], ys[1..]))
  }

  function SlotNames(t: seq<Slot>): (ns: seq<string>)
    ensures |ns| == |t|
  {
    seq(|t|, i requires 0 <= i < |t| => t[i].name)
  }

  function Bit(b: bool): nat {
    if b then 1 else 0
  }

  /** The HTTP response the capture service answers with; the fetch itself is not modelled. */
  datatype Response = Response(status: int, statusText: string, body: seq<byte>)

  class ScreenshotOneApi {
    const accessKey: string
    const baseUrl: string := BaseUrl

    constructor (accessKey: string)
      ensures this.accessKey == accessKey && baseUrl == BaseUrl
    {
      this.accessKey := accessKey;
    }

    method GenerateScreenshotUrl(options: Options) returns (r: string)
      ensures r == ScreenshotUrl(accessKey, options)
    {
      var params: seq<Pair> := [];

      params := params + [("access_key", accessKey)];
      params := params + [("url", options.url)];

      params := params + [("viewport_width", IntToString(NumberOr(options.viewportWidth, 1920)))];
      params := params + [("viewport_height", IntToString(NumberOr(options.viewportHeight, 1080)))];
      params := params + [("device_scale_factor", IntToString(NumberOr(options.deviceScaleFactor, 2)))];
      params := params + [("format", if options.format.Some? then FormatName(options.format.value) else "png")];
      params := params + [("image_quality", IntToString(NumberOr(options.imageQuality, 100)))];

      params := params + (if options.blockAds != Some(false) then [("block_ads", "true")] else []);
      params := params + (if options.blockCookieBanners != Some(false) then [("block_cookie_banners", "true")] else []);
      params := params + (if options.blockBanners != Some(false) then [("block_banners", "true")] else []);
      params := params + (if options.blockTrackers != Some(false) then [("block_trackers", "true")] else []);

      params := params + [("delay", IntToString(NumberOr(options.delay, 0)))];
      params := params + [("timeout", IntToString(NumberOr(options.timeout, 60)))];

      params := params + (if options.fullPage != Some(false) then [("full_page", "true")] else []);
      params := params + (if options.omitBackground == Some(true) then [("omit_background", "true")] else []);
      params := params + (if options.darkMode == Some(true) then [("dark_mode", "true")] else []);
      params := params + (if options.reduceMotion == Some(true) then [("reduce_motion", "true")] else []);

      QueryParamsAsAppends(accessKey, options);
      r := baseUrl + "?" + Serialize(params);
    }

    /**
     * `takeScreenshot`: requests the generated URL; a response whose status is
     * not in 200..299 is an error carrying the status, otherwise its body is the image.
     */
    method TakeScreenshot(options: Options, response: Response) returns (requested: string, result: Result<seq<byte>, string>)
      ensures requested == ScreenshotUrl(accessKey, options)
      ensures result.Failure? <==> !(200 <= response.status <= 299)
      ensures result.Failure? ==>
        result.error == "Screenshot failed: " + IntToString(response.status) + " " + response.statusText
      ensures result.Success? ==> result.value == response.body
    {
      requested := GenerateScreenshotUrl(options);
      if !(200 <= response.status <= 299) {
        result := Failure("Screenshot failed: " + IntToString(response.status) + " " + response.statusText);
      } else {
        result := Success(response.body);
      }
    }
  }

  // ------------------------------------------------------ tables of slots

  lemma {:induction false} AppendedConcat(a: seq<Slot>, b: seq<Slot>)
    ensures Appended(a + b) == Appended(a) + Appended(b)
    decreases |a|
  {
    if a == [] {
      assert a + b == b;
    } else {
      assert (a + b)[0] == a[0];
      assert (a + b)[1..] == a[1..] + b;
      AppendedConcat(a[1..], b);
    }
  }

  lemma AppendedPrefix(t: seq<Slot>, k: nat)
    requires k < |t|
    ensures Appended(t[..k + 1]) == Appended(t[..k]) + Emit(t[k])
  {
    assert t[..k + 1] == t[..k] + [t[k]];
    AppendedConcat(t[..k], [t[k]]);
    assert [t[k]][1..] == [];
  }

  lemma {:induction false} AppendedAbsent(t: seq<Slot>, name: string)
    requires forall j :: 0 <= j < |t| ==> t[j].name != name
    ensures Lookup(Appended(t), name) == None
    decreases |t|
  {
    if t != [] {
      AppendedAbsent(t[1..], name);
      LookupSpec(Appended(t[1..]), name);
      var ps := Appended(t);
      LookupSpec(ps, name);
      forall k | 0 <= k < |ps| ensures ps[k].0 != name {
        if k < |Emit(t[0])| {
          assert ps[k] == (t[0].name, t[0].value);
        } else {
          assert ps[k] == Appended(t[1..])[k - |Emit(t[0])|];
        }
      }
    }
  }

  /** With distinct names, looking a slot's name up finds that slot's value exactly when it was appended. */
  lemma {:induction false} AppendedLookup(t: seq<Slot>, i: nat)
    requires i < |t|
    requires forall j :: 0 <= j < |t| && j != i ==> t[j].name != t[i].name
    ensures Lookup(Appended(t), t[i].name) == (if t[i].appended then Some(t[i].value) else None)
    decreases |t|
  {
    var name := t[i].name;
    var ps := Appended(t);
    var rest := Appended(t[1..]);
    assert ps == Emit(t[0]) + rest;
    if i == 0 {
      AppendedAbsent(t[1..], name);
      if t[0].appended {
        assert ps[0] == (name, t[0].value);
      } else {
        assert ps == rest;
      }
    } else {
      AppendedLookup(t[1..], i - 1);
      if t[0].appended {
        assert ps[0].0 != name && ps[1..] == rest;
      } else {
        assert ps == rest;
      }
    }
  }

  /** The appended parameters keep the table's order. */
  lemma {:induction false} AppendedOrdered(t: seq<Slot>)
    ensures IsSubsequence(Names(Appended(t)), SlotNames(t))
    decreases |t|
  {
    if t != [] {
      AppendedOrdered(t[1..]);
      var ns, rest := Names(Appended(t)), Names(Appended(t[1..]));
      assert SlotNames(t)[1..] == SlotNames(t[1..]);
      if t[0].appended {
        assert ns[1..] == rest;
      } else {
        assert ns == rest;
      }
    }
  }

  lemma {:induction false} SubsequenceElements(xs: seq<string>, ys: seq<string>, k: nat)
    requires IsSubsequence(xs, ys) && k < |xs|
    ensures xs[k] in ys
    decreases |ys|
  {
    if IsSubsequence(xs, ys[1..]) {
      SubsequenceElements(xs, ys[1..], k);
    } else if k > 0 {
      SubsequenceElements(xs[1..], ys[1..], k - 1);
    }
  }

  /** Deleting elements from a list without repetitions leaves one without repetitions. */
  lemma {:induction false} SubsequenceDistinct(xs: seq<string>, ys: seq<string>)
    requires IsSubsequence(xs, ys) && Distinct(ys)
    ensures Distinct(xs)
    decreases |ys|
  {
    if xs != [] {
      if IsSubsequence(xs, ys[1..]) {
        SubsequenceDistinct(xs, ys[1..]);
      } else {
        SubsequenceDistinct(xs[1..], ys[1..]);
        forall k | 0 < k < |xs| ensures xs[0] != xs[k] {
          SubsequenceElements(xs[1..], ys[1..], k - 1);
        }
      }
    }
  }

  lemma ParamOrderDistinct()
    ensures Distinct(ParamOrder)
  {
    // No two names share both their length and their first letter.
    var keys := [(10, 'a'), (3, 'u'), (14, 'v'), (15, 'v'), (19, 'd'), (6, 'f'), (13, 'i'), (9, 'b'), (20, 'b'), (13, 'b'), (14, 'b'), (5, 'd'), (7, 't'), (9, 'f'), (15, 'o'), (9, 'd'), (13, 'r')];
    assert forall i :: 0 <= i < |ParamOrder| ==> (|ParamOrder[i]|, ParamOrder[i][0]) == keys[i];
    assert forall i, j :: 0 <= i < j < |keys| ==> keys[i] != keys[j];
  }

  // ------------------------------------------------ properties of the URL

  /** Every parameter appears at most once, and in the fixed append order. */
  lemma ParamsOrderedAndUnique(accessKey: string, o: Options)
    ensures IsSubsequence(Names(QueryParams(accessKey, o)), ParamOrder)
    ensures Distinct(Names(QueryParams(accessKey, o)))
  {
    var t := Slots(accessKey, o);
    AppendedOrdered(t);
    assert SlotNames(t) == ParamOrder;
    ParamOrderDistinct();
    SubsequenceDistinct(Names(QueryParams(accessKey, o)), ParamOrder);
  }

  /** The list starts with the access key and then the target URL. */
  lemma CredentialAndTargetFirst(accessKey: string, o: Options)
    ensures 2 <= |QueryParams(accessKey, o)|
    ensures QueryParams(accessKey, o)[0] == ("access_key", accessKey)
    ensures QueryParams(accessKey, o)[1] == ("url", o.url)
  {
    var t := Slots(accessKey, o);
    assert Appended(t) == [("access_key", accessKey)] + Appended(t[1..]);
    assert Appended(t[1..]) == [("url", o.url)] + Appended(t[1..][1..]);
  }

  /** Nine slots produce what appending their emissions one after another does. */
  lemma AppendsInOrderNine(t: seq<Slot>)
    requires |t| == 9
    ensures Appended(t)
         == [] + Emit(t[0]) + Emit(t[1]) + Emit(t[2]) + Emit(t[3]) + Emit(t[4])
         + Emit(t[5]) + Emit(t[6]) + Emit(t[7]) + Emit(t[8])
  {
    assert t[..0] == [];
    AppendedPrefix(t, 0);
    AppendedPrefix(t, 1);
    AppendedPrefix(t, 2);
    AppendedPrefix(t, 3);
    AppendedPrefix(t, 4);
    AppendedPrefix(t, 5);
    AppendedPrefix(t, 6);
    AppendedPrefix(t, 7);
    AppendedPrefix(t, 8);
    assert t[..9] == t;
  }

  /** Eight slots produce what appending their emissions one after another does. */
  lemma AppendsInOrderEight(t: seq<Slot>)
    requires |t| == 8
    ensures Appended(t)
         == Emit(t[0]) + Emit(t[1]) + Emit(t[2]) + Emit(t[3]) + Emit(t[4]) + Emit(t[5])
         + Emit(t[6]) + Emit(t[7])
  {
    assert t[..1] == [t[0]];
    assert Appended([t[0]]) == Emit(t[0]) by { assert [t[0]][1..] == []; }
    AppendedPrefix(t, 1);
    AppendedPrefix(t, 2);
    AppendedPrefix(t, 3);
    AppendedPrefix(t, 4);
    AppendedPrefix(t, 5);
    AppendedPrefix(t, 6);
    AppendedPrefix(t, 7);
    assert t[..8] == t;
  }

  /** Left-nested regrouping of eight appended pieces. */
  lemma AppendEight<T>(x: seq<T>, a: seq<T>, b: seq<T>, c: seq<T>, d: seq<T>,
                       e: seq<T>, f: seq<T>, g: seq<T>, h: seq<T>)
    ensures x + (a + b + c + d + e + f + g + h) == x + a + b + c + d + e + f + g + h
  {
  }

  /** Seventeen slots produce what appending their emissions one after another does. */
  lemma AppendsInOrder(t: seq<Slot>)
    requires |t| == 17
    ensures Appended(t)
         == [] + Emit(t[0]) + Emit(t[1]) + Emit(t[2]) + Emit(t[3]) + Emit(t[4])
         + Emit(t[5]) + Emit(t[6]) + Emit(t[7]) + Emit(t[8]) + Emit(t[9]) + Emit(t[10])
         + Emit(t[11]) + Emit(t[12]) + Emit(t[13]) + Emit(t[14]) + Emit(t[15]) + Emit(t[16])
  {
    var front, back := t[..9], t[9..];
    assert t == front + back;
    AppendedConcat(front, back);
    AppendsInOrderNine(front);
    AppendsInOrderEight(back);
    AppendEight(Appended(front), Emit(t[9]), Emit(t[10]), Emit(t[11]), Emit(t[12]),
                Emit(t[13]), Emit(t[14]), Emit(t[15]), Emit(t[16]));
  }

  /** The slot table read back as the builder's appends, guard by guard. */
  lemma QueryParamsAsAppends(accessKey: string, o: Options)
    ensures QueryParams(accessKey, o)
         == [] + [("access_key", accessKey)] + [("url", o.url)]
            + [("viewport_width", IntToString(NumberOr(o.viewportWidth, 1920)))]
            + [("viewport_height", IntToString(NumberOr(o.viewportHeight, 1080)))]
            + [("device_scale_factor", IntToString(NumberOr(o.deviceScaleFactor, 2)))]
            + [("format", if o.format.Some? then FormatName(o.format.value) else "png")]
            + [("image_quality", IntToString(NumberOr(o.imageQuality, 100)))]
            + (if o.blockAds != Some(false) then [("block_ads", "true")] else [])
            + (if o.blockCookieBanners != Some(false) then [("block_cookie_banners", "true")] else [])
            + (if o.blockBanners != Some(false) then [("block_banners", "true")] else [])
            + (if o.blockTrackers != Some(false) then [("block_trackers", "true")] else [])
            + [("delay", IntToString(NumberOr(o.delay, 0)))]
            + [("timeout", IntToString(NumberOr(o.timeout, 60)))]
            + (if o.fullPage != Some(false) then [("full_page", "true")] else [])
            + (if o.omitBackground == Some(true) then [("omit_background", "true")] else [])
            + (if o.darkMode == Some(true) then [("dark_mode", "true")] else [])
            + (if o.reduceMotion == Some(true) then [("reduce_motion", "true")] else [])
  {
    AppendsInOrder(Slots(accessKey, o));
  }

  /** Nine parameters are always there; each of the eight guarded ones adds one. */
  lemma ParamCount(accessKey: string, o: Options)
    ensures |QueryParams(accessKey, o)|
         == 9 + Bit(o.blockAds != Some(false)) + Bit(o.blockCookieBanners != Some(false))
            + Bit(o.blockBanners != Some(false)) + Bit(o.blockTrackers != Some(false))
            + Bit(o.fullPage != Some(false)) + Bit(o.omitBackground == Some(true))
            + Bit(o.darkMode == Some(true)) + Bit(o.reduceMotion == Some(true))
    ensures 9 <= |QueryParams(accessKey, o)| <= 17
  {
    QueryParamsAsAppends(accessKey, o);
  }

  lemma LookupSlot(accessKey: string, o: Options, i: nat)
    requires i < |ParamOrder|
    ensures Lookup(QueryParams(accessKey, o), ParamOrder[i])
         == (if Slots(accessKey, o)[i].appended then Some(Slots(accessKey, o)[i].value) else None)
  {
    ParamOrderDistinct();
    AppendedLookup(Slots(accessKey, o), i);
  }

  // One parameter at a time; the lemmas after these group them.

  lemma LookupAccessKey(accessKey: string, o: Options)
    ensures Lookup(QueryParams(accessKey, o), "access_key")
         == Some(accessKey)
  {
    LookupSlot(accessKey, o, 0);
  }

  lemma LookupUrl(accessKey: string, o: Options)
    ensures Lookup(QueryParams(accessKey, o), "url")
         == Some(o.url)
  {
    LookupSlot(accessKey, o, 1);
  }

  lemma LookupFormat(accessKey: string, o: Options)
    ensures Lookup(QueryParams(accessKey, o), "format")
         == Some(if o.format == None then "png" else FormatName(o.format.value))
  {
    LookupSlot(accessKey, o, 5);
  }

  lemma LookupImageQuality(accessKey: string, o: Options)
    ensures Lookup(QueryParams(accessKey, o), "image_quality")
         == Some(IntToString(if o.imageQuality in {None, Some(0)} then 100 else o.imageQuality.value))
  {
    LookupSlot(accessKey, o, 6);
  }

  lemma LookupViewportWidth(accessKey: string, o: Options)
    ensures Lookup(QueryParams(accessKey, o), "viewport_width")
         == Some(IntToString(if o.viewportWidth in {None, Some(0)} then 1920 else o.viewportWidth.value))
  {
    LookupSlot(accessKey, o, 2);
  }

  lemma LookupViewportHeight(accessKey: string, o: Options)
    ensures Lookup(QueryParams(accessKey, o), "viewport_height")
         == Some(IntToString(if o.viewportHeight in {None, Some(0)} then 1080 else o.viewportHeight.value))
  {
    LookupSlot(accessKey, o, 3);
  }

  lemma LookupDeviceScaleFactor(accessKey: string, o: Options)
    ensures Lookup(QueryParams(accessKey, o), "device_scale_factor")
         == Some(IntToString(if o.deviceScaleFactor in {None, Some(0)} then 2 else o.deviceScaleFactor.value))
  {
    LookupSlot(accessKey, o, 4);
  }

  lemma LookupDelay(accessKey: string, o: Options)
    ensures Lookup(QueryParams(accessKey, o), "delay")
         == Some(IntToString(if o.delay in {None, Some(0)} then 0 else o.delay.value))
  {
    LookupSlot(accessKey, o, 11);
  }

  lemma LookupTimeout(accessKey: string, o: Options)
    ensures Lookup(QueryParams(accessKey, o), "timeout")
         == Some(IntToString(if o.timeout in {None, Some(0)} then 60 else o.timeout.value))
  {
    LookupSlot(accessKey, o, 12);
  }

  lemma LookupBlockAds(accessKey: string, o: Options)
    ensures Lookup(QueryParams(accessKey, o), "block_ads")
         == (if o.blockAds == Some(false) then None else Some("true"))
  {
    LookupSlot(accessKey, o, 7);
  }

  lemma LookupBlockCookieBanners(accessKey: string, o: Options)
    ensures Lookup(QueryParams(accessKey, o), "block_cookie_banners")
         == (if o.blockCookieBanners == Some(false) then None else Some("true"))
  {
    LookupSlot(accessKey, o, 8);
  }

  lemma LookupBlockBanners(accessKey: string, o: Options)
    ensures Lookup(QueryParams(accessKey, o), "block_banners")
         == (if o.blockBanners == Some(false) then None else Some("true"))
  {
    LookupSlot(accessKey, o, 9);
  }

  lemma LookupBlockTrackers(accessKey: string, o: Options)
    ensures Lookup(QueryParams(accessKey, o), "block_trackers")
         == (if o.blockTrackers == Some(false) then None else Some("true"))
  {
    LookupSlot(accessKey, o, 10);
  }

  lemma LookupFullPage(accessKey: string, o: Options)
    ensures Lookup(QueryParams(accessKey, o), "full_page")
         == (if o.fullPage == Some(false) then None else Some("true"))
  {
    LookupSlot(accessKey, o, 13);
  }

  lemma LookupOmitBackground(accessKey: string, o: Options)
    ensures Lookup(QueryParams(accessKey, o), "omit_background")
         == (if o.omitBackground == Some(true) then Some("true") else None)
  {
    LookupSlot(accessKey, o, 14);
  }

  lemma LookupDarkMode(accessKey: string, o: Options)
    ensures Lookup(QueryParams(accessKey, o), "dark_mode")
         == (if o.darkMode == Some(true) then Some("true") else None)
  {
    LookupSlot(accessKey, o, 15);
  }

  lemma LookupReduceMotion(accessKey: string, o: Options)
    ensures Lookup(QueryParams(accessKey, o), "reduce_motion")
         == (if o.reduceMotion == Some(true) then Some("true") else None)
  {
    LookupSlot(accessKey, o, 16);
  }

  /** The credential, the target, the format and the quality are always sent. */
  lemma TargetValues(accessKey: string, o: Options)
    ensures Lookup(QueryParams(accessKey, o), "access_key") == Some(accessKey)
    ensures Lookup(QueryParams(accessKey, o), "url") == Some(o.url)
    ensures Lookup(QueryParams(accessKey, o), "format")
         == Some(if o.format == None then "png" else FormatName(o.format.value))
    ensures Lookup(QueryParams(accessKey, o), "image_quality")
         == Some(IntToString(if o.imageQuality in {None, Some(0)} then 100 else o.imageQuality.value))
  {
    LookupAccessKey(accessKey, o);
    LookupUrl(accessKey, o);
    LookupFormat(accessKey, o);
    LookupImageQuality(accessKey, o);
  }

  /** The viewport is always sent; a missing or zero number falls back to 1920 x 1080 at scale 2. */
  lemma ViewportValues(accessKey: string, o: Options)
    ensures Lookup(QueryParams(accessKey, o), "viewport_width")
         == Some(IntToString(if o.viewportWidth in {None, Some(0)} then 1920 else o.viewportWidth.value))
    ensures Lookup(QueryParams(accessKey, o), "viewport_height")
         == Some(IntToString(if o.viewportHeight in {None, Some(0)} then 1080 else o.viewportHeight.value))
    ensures Lookup(QueryParams(accessKey, o), "device_scale_factor")
         == Some(IntToString(if o.deviceScaleFactor in {None, Some(0)} then 2 else o.deviceScaleFactor.value))
  {
    LookupViewportWidth(accessKey, o);
    LookupViewportHeight(accessKey, o);
    LookupDeviceScaleFactor(accessKey, o);
  }

  /** Delay and timeout are always sent; a missing or zero number falls back to 0 and 60 seconds. */
  lemma TimingValues(accessKey: string, o: Options)
    ensures Lookup(QueryParams(accessKey, o), "delay")
         == Some(IntToString(if o.delay in {None, Some(0)} then 0 else o.delay.value))
    ensures Lookup(QueryParams(accessKey, o), "timeout")
         == Some(IntToString(if o.timeout in {None, Some(0)} then 60 else o.timeout.value))
  {
    LookupDelay(accessKey, o);
    LookupTimeout(accessKey, o);
  }

  /** The privacy options and `full_page` are `"true"` unless explicitly disabled, and absent then. */
  lemma OnUnlessFalseFlags(accessKey: string, o: Options)
    ensures Lookup(QueryParams(accessKey, o), "block_ads") == (if o.blockAds == Some(false) then None else Some("true"))
    ensures Lookup(QueryParams(accessKey, o), "block_cookie_banners")
         == (if o.blockCookieBanners == Some(false) then None else Some("true"))
    ensures Lookup(QueryParams(accessKey, o), "block_banners")
         == (if o.blockBanners == Some(false) then None else Some("true"))
    ensures Lookup(QueryParams(accessKey, o), "block_trackers")
         == (if o.blockTrackers == Some(false) then None else Some("true"))
    ensures Lookup(QueryParams(accessKey, o), "full_page") == (if o.fullPage == Some(false) then None else Some("true"))
  {
    LookupBlockAds(accessKey, o);
    LookupBlockCookieBanners(accessKey, o);
    LookupBlockBanners(accessKey, o);
    LookupBlockTrackers(accessKey, o);
    LookupFullPage(accessKey, o);
  }

  /** `omit_background`, `dark_mode` and `reduce_motion` are `"true"` only when set to true, absent otherwise. */
  lemma OnlyWhenTrueFlags(accessKey: string, o: Options)
    ensures Lookup(QueryParams(accessKey, o), "omit_background")
         == (if o.omitBackground == Some(true) then Some("true") else None)
    ensures Lookup(QueryParams(accessKey, o), "dark_mode") == (if o.darkMode == Some(true) then Some("true") else None)
    ensures Lookup(QueryParams(accessKey, o), "reduce_motion")
         == (if o.reduceMotion == Some(true) then Some("true") else None)
  {
    LookupOmitBackground(accessKey, o);
    LookupDarkMode(accessKey, o);
    LookupReduceMotion(accessKey, o);
  }

  /** The credential pair is written as `access_key=` and the encoded key. */
  lemma CredentialPairText(accessKey: string)
    ensures SerializePair(("access_key", accessKey)) == "access_key=" + EncodeComponent(accessKey)
  {
    assert "access_key" + "=" == "access_key=";
    UnreservedUnchanged("access_key");
  }

  /** The target pair is written as `url=` and the encoded target URL. */
  lemma TargetPairText(url: string)
    ensures SerializePair(("url", url)) == "url=" + EncodeComponent(url)
  {
    assert "url" + "=" == "url=";
    UnreservedUnchanged("url");
  }

  /** The URL is the endpoint, then `access_key` and `url`, each form-urlencoded, then the rest. */
  lemma ScreenshotUrlPrefix(accessKey: string, o: Options)
    ensures 2 <= |QueryParams(accessKey, o)|
    ensures ScreenshotUrl(accessKey, o)
         == BaseUrl + "?" + SerializePair(("access_key", accessKey)) + "&" + SerializePair(("url", o.url))
            + "&" + Serialize(QueryParams(accessKey, o)[2..])
  {
    var ps := QueryParams(accessKey, o);
    CredentialAndTargetFirst(accessKey, o);
    assert 3 <= |ps| by { ParamCount(accessKey, o); }
    SerializeFirstTwo(ps);
    PrefixAssoc(BaseUrl + "?", SerializePair(ps[0]), SerializePair(ps[1]), Serialize(ps[2..]));
  }

  lemma PrefixAssoc(p: string, a: string, b: string, c: string)
    ensures p + (a + "&" + b + "&" + c) == p + a + "&" + b + "&" + c
  {
  }

  /** Parsing the query back gives exactly the list of parameters that was built. */
  lemma ScreenshotUrlQueryRoundTrip(accessKey: string, o: Options)
    ensures ScreenshotUrl(accessKey, o)[..|BaseUrl| + 1] == BaseUrl + "?"
    ensures ParseQuery(ScreenshotUrl(accessKey, o)[|BaseUrl| + 1..]) == Some(QueryParams(accessKey, o))
  {
    var u := ScreenshotUrl(accessKey, o);
    assert u[|BaseUrl| + 1..] == Serialize(QueryParams(accessKey, o));
    SerializeRoundTrip(QueryParams(accessKey, o));
  }
}
