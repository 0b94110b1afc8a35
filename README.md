# Screenshot front end: request URLs, URL validation, capture settings

This project models the logic inside a small React front end for the
ScreenshotOne capture service. The model covers four pieces.

- **The request-URL compiler** (`src/lib/screenshotone.ts`, module
  `ScreenshotOne`). The class `ScreenshotOneApi` keeps the access key and the
  endpoint `https://api.screenshotone.com/take`. Its method
  `GenerateScreenshotUrl` appends the query parameters one `append` at a time
  to a sequence of name/value pairs. It then writes the endpoint, a `?` and the
  serialized pairs.
  - The method is proved equal to the specification function `ScreenshotUrl`.
  - Lemmas about that function state which parameters appear, with which
    values and in which order, and how many there are.
  - They also show that the query string parses back to the exact pair list.
- **The `application/x-www-form-urlencoded` serializer** that
  `URLSearchParams.prototype.toString` uses (WHATWG URL Standard, section 5.2;
  module `FormUrlEncoded`). It covers UTF-8 encoding and percent-encoding of
  every byte except `*-._` and ASCII alphanumerics, with `+` for a space. A
  parser is its partner: it is proved to be the serializer's left inverse.
  Integers are written with `toString` (module `Decimal`), whose partner is a
  reader of an optional `-` followed by decimal digits.
- **The capture page** (`src/pages/Index.tsx`, module `CapturePage`).
  - Validation: an empty input is "URL required". Otherwise `https://` is
    prepended unless the input already has a scheme. One scheme is then
    stripped, and the rest is tested against the page's regular expression.
  - The regular expression is modelled twice: as a declarative language
    (`MatchesPattern`) and as a deterministic recogniser. The two are proved
    equivalent.
  - The class `Page` holds the component's state: `url`, `isCapturing` and
    `screenshotUrl`. It has the capture handler's validation prefix, the
    capture button's enable condition and the download guard with its file
    name.
- **The settings panel** (`src/components/ScreenshotSettings.tsx`, module
  `ScreenshotSettings`).
  - The configuration record and the object-spread update.
  - The five device presets and the rule that highlights one.
  - The values the selects, sliders and switches hand to the update.

The compiler appends seventeen parameters: nine unconditional and eight
guarded (four `block_*`, `full_page`, `omit_background`, `dark_mode` and
`reduce_motion`). A URL therefore carries between 9 and 17 of them.

Shared modules: `Wrappers` (`Option`, `Result`) and `ImageFormat` (`png`,
`jpg`, `webp`).

## Model

| member | source | states |
|---|---|---|
| ScreenshotOne.ScreenshotOneApi.constructor | src/lib/screenshotone.ts:20-26 | the instance keeps the given access key; the endpoint is the fixed capture URL |
| ScreenshotOne.ScreenshotOneApi.GenerateScreenshotUrl | src/lib/screenshotone.ts:28-59 | the 17 guarded appends to one growing pair list, written after the endpoint and `?`, give exactly `ScreenshotUrl(accessKey, options)` |
| ScreenshotOne.ScreenshotOneApi.TakeScreenshot | src/lib/screenshotone.ts:61-71 | the URL requested is the generated one; a status outside 200-299 fails with "Screenshot failed: <status> <statusText>", otherwise the result is the response body |
| ScreenshotOne.NumberOr | src/lib/screenshotone.ts:36-50 | JavaScript's logical-or default for an optional number; its meaning per parameter is given by the `Lookup*` lemmas (absent or 0 gives the default) |
| ScreenshotOne.QueryParams | src/lib/screenshotone.ts:29-56 | the pair list the appends build; described by `QueryParamsAsAppends`, `ParamCount`, `ParamsOrderedAndUnique` and the `Lookup*` lemmas |
| ScreenshotOne.ScreenshotUrl | src/lib/screenshotone.ts:28-58 | the returned URL; described by `ScreenshotUrlPrefix` and `ScreenshotUrlQueryRoundTrip` |
| ScreenshotOne.Slots | src/lib/screenshotone.ts:32-56 | there is one slot per `append`, and the i-th slot carries the i-th name of the fixed parameter order |
| ScreenshotOne.QueryParamsAsAppends | src/lib/screenshotone.ts:29-56 | the parameter list is the concatenation of the seventeen appends in source order; each guarded one is present exactly when its guard holds |
| ScreenshotOne.ParamCount | src/lib/screenshotone.ts:32-56 | the count is 9 plus one for each guard that holds, so it lies between 9 and 17 |
| ScreenshotOne.ParamOrderDistinct | src/lib/screenshotone.ts:32-56 | the seventeen parameter names are pairwise distinct |
| ScreenshotOne.ParamsOrderedAndUnique | src/lib/screenshotone.ts:29-58 | the emitted names are a subsequence of the fixed append order, and no name is emitted twice |
| ScreenshotOne.CredentialAndTargetFirst | src/lib/screenshotone.ts:31-33 | the first pair is (`access_key`, the constructor's key) and the second is (`url`, `options.url`) |
| ScreenshotOne.LookupSlot | src/lib/screenshotone.ts:29-56 | looking up the i-th name yields that slot's value if its guard held and nothing otherwise |
| ScreenshotOne.LookupAccessKey | src/lib/screenshotone.ts:32 | `access_key` is always present with the stored key |
| ScreenshotOne.LookupUrl | src/lib/screenshotone.ts:33 | `url` is always present with `options.url` |
| ScreenshotOne.LookupViewportWidth | src/lib/screenshotone.ts:36 | `viewport_width` is always present; an absent or 0 value gives 1920 |
| ScreenshotOne.LookupViewportHeight | src/lib/screenshotone.ts:37 | `viewport_height` is always present; an absent or 0 value gives 1080 |
| ScreenshotOne.LookupDeviceScaleFactor | src/lib/screenshotone.ts:38 | `device_scale_factor` is always present; an absent or 0 value gives 2 |
| ScreenshotOne.LookupFormat | src/lib/screenshotone.ts:39 | `format` is always present; an absent format gives `png` |
| ScreenshotOne.LookupImageQuality | src/lib/screenshotone.ts:40 | `image_quality` is always present; an absent or 0 value gives 100 |
| ScreenshotOne.LookupBlockAds | src/lib/screenshotone.ts:43 | `block_ads` is `"true"` unless the option is explicitly false, in which case it is absent |
| ScreenshotOne.LookupBlockCookieBanners | src/lib/screenshotone.ts:44 | `block_cookie_banners` is `"true"` unless the option is explicitly false, in which case it is absent |
| ScreenshotOne.LookupBlockBanners | src/lib/screenshotone.ts:45 | `block_banners` is `"true"` unless the option is explicitly false, in which case it is absent |
| ScreenshotOne.LookupBlockTrackers | src/lib/screenshotone.ts:46 | `block_trackers` is `"true"` unless the option is explicitly false, in which case it is absent |
| ScreenshotOne.LookupDelay | src/lib/screenshotone.ts:49 | `delay` is always present; an absent or 0 value gives 0 |
| ScreenshotOne.LookupTimeout | src/lib/screenshotone.ts:50 | `timeout` is always present; an absent or 0 value gives 60 |
| ScreenshotOne.LookupFullPage | src/lib/screenshotone.ts:53 | `full_page` is `"true"` unless the option is explicitly false, so it is on by default |
| ScreenshotOne.LookupOmitBackground | src/lib/screenshotone.ts:54 | `omit_background` is `"true"` only when the option is true, and absent otherwise |
| ScreenshotOne.LookupDarkMode | src/lib/screenshotone.ts:55 | `dark_mode` is `"true"` only when the option is true, and absent otherwise |
| ScreenshotOne.LookupReduceMotion | src/lib/screenshotone.ts:56 | `reduce_motion` is `"true"` only when the option is true, and absent otherwise |
| ScreenshotOne.TargetValues | src/lib/screenshotone.ts:32-40 | the credential, the target, the format and the quality are always present, with their defaults |
| ScreenshotOne.ViewportValues | src/lib/screenshotone.ts:36-38 | the three viewport parameters are always present; they default to 1920, 1080 and 2 when absent or 0 |
| ScreenshotOne.TimingValues | src/lib/screenshotone.ts:49-50 | `delay` and `timeout` are always present; they default to 0 and 60 when absent or 0 |
| ScreenshotOne.OnUnlessFalseFlags | src/lib/screenshotone.ts:43-53 | the four `block_*` parameters and `full_page` are present exactly when their option is not explicitly false |
| ScreenshotOne.OnlyWhenTrueFlags | src/lib/screenshotone.ts:54-56 | `omit_background`, `dark_mode` and `reduce_motion` are present exactly when their option is true |
| ScreenshotOne.CredentialPairText | src/lib/screenshotone.ts:32 | the credential is written as `access_key=` followed by the encoded key |
| ScreenshotOne.TargetPairText | src/lib/screenshotone.ts:33 | the target is written as `url=` followed by the encoded URL |
| ScreenshotOne.ScreenshotUrlPrefix | src/lib/screenshotone.ts:22-58 | the URL is the endpoint, then `?`, then the credential pair, `&`, the target pair, `&`, and the remaining pairs |
| ScreenshotOne.ScreenshotUrlQueryRoundTrip | src/lib/screenshotone.ts:58 | the URL starts with the endpoint and `?`, and parsing what follows gives back exactly the appended pair list |
| ScreenshotOne.AppendedLookup | src/lib/screenshotone.ts:29-56 | in a table of distinctly named slots, a name's lookup is its slot's value when appended and nothing otherwise |
| ScreenshotOne.AppendedOrdered | src/lib/screenshotone.ts:29-56 | appending in table order keeps the names in table order |
| FormUrlEncoded.EncodeComponent | src/lib/screenshotone.ts:58 | the form-urlencoded byte serializer applied to the UTF-8 bytes of a name or value; described by `EncodeComponentOutput`, `UnreservedUnchanged` and `ComponentRoundTrip` |
| FormUrlEncoded.Serialize | src/lib/screenshotone.ts:58 | `name=value` pairs joined by `&`; described by `SerializeRoundTrip`, `SerializeInjective` and `SerializeFirstTwo` |
| FormUrlEncoded.Utf8 | src/lib/screenshotone.ts:58 | a character takes one to four UTF-8 bytes, and exactly one when it is ASCII, in which case the byte is its code |
| FormUrlEncoded.Utf8RoundTrip | src/lib/screenshotone.ts:58 | decoding the UTF-8 encoding of a string gives the string back |
| FormUrlEncoded.EncodeComponentOutput | src/lib/screenshotone.ts:58 | an encoded name or value holds only unreserved characters, `+` and `%`; in particular it holds no `&`, `=` or space |
| FormUrlEncoded.UnreservedUnchanged | src/lib/screenshotone.ts:58 | a string made only of `*-._` and ASCII alphanumerics is written unchanged |
| FormUrlEncoded.EncodeAsciiChar | src/lib/screenshotone.ts:58 | an ASCII character is written as the encoding of its single byte |
| FormUrlEncoded.EncodeComponentConcat | src/lib/screenshotone.ts:58 | encoding distributes over concatenation |
| FormUrlEncoded.PercentDecodeBytes | src/lib/screenshotone.ts:58 | percent-decoding undoes the byte encoding |
| FormUrlEncoded.ComponentRoundTrip | src/lib/screenshotone.ts:58 | decoding an encoded component gives the component back |
| FormUrlEncoded.PairRoundTrip | src/lib/screenshotone.ts:58 | parsing a serialized `name=value` gives the pair back |
| FormUrlEncoded.SerializeFirstTwo | src/lib/screenshotone.ts:58 | a list of three or more pairs is written as its first pair, `&`, its second pair, `&`, and the rest |
| FormUrlEncoded.SerializeRoundTrip | src/lib/screenshotone.ts:58 | parsing a serialized pair list gives exactly that list back |
| FormUrlEncoded.SerializeInjective | src/lib/screenshotone.ts:58 | two pair lists with the same serialization are equal |
| FormUrlEncoded.EncodeColon | src/lib/screenshotone.ts:58 | `:` is written `%3A` |
| FormUrlEncoded.EncodeSlash | src/lib/screenshotone.ts:58 | `/` is written `%2F` |
| FormUrlEncoded.TargetUrlEncodingExample | src/lib/screenshotone.ts:33 | the target `https://google.com` is written `https%3A%2F%2Fgoogle.com` |
| Decimal.IntToString | src/lib/screenshotone.ts:36-50 | a number is written as a non-empty string that starts with `-` exactly when the number is negative |
| Decimal.NatToStringValue | src/lib/screenshotone.ts:36-50 | the digits written for a natural number read back as that number |
| Decimal.IntToStringRoundTrip | src/lib/screenshotone.ts:36-50 | reading back a written integer gives the integer |
| Decimal.IntToStringInjective | src/lib/screenshotone.ts:36-50 | different integers are written differently |
| ImageFormat.FormatName | src/lib/screenshotone.ts:6 | a format is written as one of `png`, `jpg` and `webp`; `png` stands only for Png and `webp` only for Webp |
| CapturePage.HasScheme | src/pages/Index.tsx:31 | the two `startsWith` tests; `SchemeLength` and `SchemesExclusive` state how they relate |
| CapturePage.NormalizeUrl | src/pages/Index.tsx:29-33 | the result always has a scheme; an input with a scheme is unchanged, otherwise `https://` is put in front |
| CapturePage.NormalizeIdempotent | src/pages/Index.tsx:29-33 | normalizing twice is the same as normalizing once |
| CapturePage.SchemesExclusive | src/pages/Index.tsx:31 | no string starts with both `http://` and `https://` |
| CapturePage.NoSchemeWithoutH | src/pages/Index.tsx:31 | a string that is empty or does not start with `h` has no scheme |
| CapturePage.SchemeLength | src/pages/Index.tsx:35 | the leading scheme is 8 characters long for `https://`, 7 for `http://` and 0 otherwise |
| CapturePage.StripScheme | src/pages/Index.tsx:35 | after `https://` the rest from index 8 remains, after `http://` the rest from index 7; a string without a scheme is unchanged |
| CapturePage.SchemeChars | src/pages/Index.tsx:35 | the stripped scheme consists of the characters of `https:/` only |
| CapturePage.AfterScheme | src/pages/Index.tsx:35 | a character outside `https:/` lies after the stripped scheme |
| CapturePage.HostRun | src/pages/Index.tsx:28 | the `[\w\-]` run is the longest prefix of host characters |
| CapturePage.HostRunIs | src/pages/Index.tsx:28 | a run of host characters ended by another character is the longest run |
| CapturePage.SplitScheme | src/pages/Index.tsx:28 | in any match, the scheme group ends where the recogniser skips to |
| CapturePage.NoSchemeSplit | src/pages/Index.tsx:28 | a match without the scheme group is only possible for a string without a scheme |
| CapturePage.SchemeHasNoDot | src/pages/Index.tsx:28 | each scheme puts its `:` before any `.` |
| CapturePage.MatchesPattern | src/pages/Index.tsx:28 | the regular expression as a declared language: some split into optional scheme, host run, dot, 2 to 63 letters and path characters; tied to the recogniser by `RecogniseMatches` |
| CapturePage.RecogniseHost | src/pages/Index.tsx:28 | the pattern after the scheme group, recognised deterministically; its meaning is given by `RecogniseMatches` and `ValidateWithoutScheme` |
| CapturePage.Recognise | src/pages/Index.tsx:28-35 | the pattern test on a scheme-stripped text; equal to `MatchesPattern` by `RecogniseMatches` |
| CapturePage.RecogniseSound | src/pages/Index.tsx:28 | what the recogniser accepts, the pattern matches |
| CapturePage.RecogniseComplete | src/pages/Index.tsx:28 | what the pattern matches, the recogniser accepts |
| CapturePage.RecogniseMatches | src/pages/Index.tsx:28 | the recogniser accepts exactly the strings the regular expression matches |
| CapturePage.RecognisedDot | src/pages/Index.tsx:28 | an accepted string contains a `.` |
| CapturePage.RecognisedNoSpace | src/pages/Index.tsx:28 | an accepted string contains no space |
| CapturePage.DomainRecognised | src/pages/Index.tsx:28 | `google.com` matches the pattern |
| CapturePage.ValidateUrl | src/pages/Index.tsx:17-42 | a successful validation yields the normalized URL, which has a scheme |
| CapturePage.OnlyEmptyIsRequired | src/pages/Index.tsx:18-25 | "URL required" happens exactly for the empty input; any other input is accepted or reported invalid |
| CapturePage.TestedText | src/pages/Index.tsx:29-35 | the tested text is the input without its scheme, or the input itself when it has none |
| CapturePage.ValidateMeansPattern | src/pages/Index.tsx:28-42 | the input is accepted exactly when it is non-empty and its normalized, scheme-stripped form matches the pattern |
| CapturePage.ValidateWithoutScheme | src/pages/Index.tsx:29-42 | a non-empty input without a scheme is accepted as `https://` + input exactly when the host pattern matches, and otherwise rejected as invalid |
| CapturePage.SpaceRejected | src/pages/Index.tsx:28-41 | any input that contains a space is rejected as invalid |
| CapturePage.DotRequired | src/pages/Index.tsx:28-41 | a non-empty input without a `.`, such as `localhost`, is rejected as invalid |
| CapturePage.BareDomainAccepted | src/pages/Index.tsx:29-42 | `google.com` is accepted as `https://google.com` |
| CapturePage.NumericHostRejected | src/pages/Index.tsx:28-41 | every non-empty input made only of digits and dots, which includes every IPv4 address, is rejected as invalid |
| CapturePage.AddressRejected | src/pages/Index.tsx:28-41 | the IP address `127.0.0.1` is rejected as invalid |
| CapturePage.AddressHostRejected | src/pages/Index.tsx:28 | `127.0.0.1` does not match the pattern: a digit follows the first dot |
| CapturePage.ShortLabelHostRejected | src/pages/Index.tsx:28 | `a.b.com` does not match the pattern: the first dot is followed by one letter and a dot |
| CapturePage.ShortLabelRejected | src/pages/Index.tsx:28-41 | `a.b.com` is rejected as invalid, because the host run stops at the first dot and `b.` is not two letters |
| CapturePage.BlankRejected | src/pages/Index.tsx:18-41 | a whitespace-only input passes the emptiness check and is rejected as invalid |
| CapturePage.DownloadFileName | src/pages/Index.tsx:172 | the file name is longer than its fixed prefix and suffix |
| CapturePage.DownloadFileNameParts | src/pages/Index.tsx:172 | the name starts with `screenshot-` and ends with `.png`, and the middle parses back to the timestamp |
| CapturePage.DownloadFileNameInjective | src/pages/Index.tsx:172 | different timestamps give different file names |
| CapturePage.Page.constructor | src/pages/Index.tsx:11-13 | the state starts with an empty URL, not capturing and no screenshot |
| CapturePage.Page.CaptureEnabled | src/pages/Index.tsx:247 | the capture button is enabled exactly when not capturing and the URL is non-empty |
| CapturePage.Page.SetUrl | src/pages/Index.tsx:240 | typing or choosing an example replaces the URL and nothing else |
| CapturePage.Page.CaptureScreenshot | src/pages/Index.tsx:17-44 | the outcome is the validation result; `isCapturing` becomes true only when validation succeeds and is otherwise unchanged; the URL and the screenshot are untouched |
| CapturePage.Page.CaptureFinished | src/pages/Index.tsx:141-158 | the `finally`, the iframe error handler and the outer `catch` set `isCapturing` to false and change nothing else |
| CapturePage.Page.BlobReady | src/pages/Index.tsx:122-125 | the image callback makes its non-empty object URL the screenshot, so a download is then possible, and leaves the URL and `isCapturing` alone, even when a new capture is already running |
| CapturePage.Page.DownloadScreenshot | src/pages/Index.tsx:167-172 | nothing is downloaded exactly when there is no screenshot; otherwise the file is `screenshot-<timestamp>.png` |
| ScreenshotSettings.UpdateConfig | src/components/ScreenshotSettings.tsx:41-43 | `{ ...config, ...updates }`; its meaning key by key is given by `UpdateKeys` |
| ScreenshotSettings.Merge | src/components/ScreenshotSettings.tsx:41-43 | the spread of two partial records; its meaning key by key is given by `MergeKeys` |
| ScreenshotSettings.UpdateKeys | src/components/ScreenshotSettings.tsx:41-43 | after an update, every key named in the update has the update's value and every other key keeps the old value |
| ScreenshotSettings.MergeKeys | src/components/ScreenshotSettings.tsx:41-43 | in a merge of two partial records, a key of the second wins over the same key of the first |
| ScreenshotSettings.UpdateNothing | src/components/ScreenshotSettings.tsx:41-43 | an update with no keys leaves the configuration unchanged |
| ScreenshotSettings.UpdateTwice | src/components/ScreenshotSettings.tsx:41-43 | two updates in a row equal one update with the merged keys |
| ScreenshotSettings.UpdateIdempotent | src/components/ScreenshotSettings.tsx:41-43 | repeating an update changes nothing more |
| ScreenshotSettings.SameFields | src/components/ScreenshotSettings.tsx:11-23 | two configurations that agree on all eleven keys are equal |
| ScreenshotSettings.SetDevicePreset | src/components/ScreenshotSettings.tsx:45-50 | the viewport width and height take the preset's size, and every other field is unchanged |
| ScreenshotSettings.IsHighlighted | src/components/ScreenshotSettings.tsx:88-89 | the button variant test; `ChosenPresetAloneHighlighted` states which preset passes it after a choice |
| ScreenshotSettings.PresetsPositive | src/components/ScreenshotSettings.tsx:32-38 | every preset width and height is positive |
| ScreenshotSettings.PresetSizesDistinct | src/components/ScreenshotSettings.tsx:32-38 | no two presets have the same size, although the two desktop presets share a width |
| ScreenshotSettings.ChosenPresetAloneHighlighted | src/components/ScreenshotSettings.tsx:84-92 | after a preset is chosen, that preset is highlighted and no other is |
| ScreenshotSettings.SliderStops | src/components/ScreenshotSettings.tsx:175-182 | the values a slider can take; its meaning is given by `SliderStopsAre` |
| ScreenshotSettings.SliderStopsAre | src/components/ScreenshotSettings.tsx:175-182 | when the range is a whole number of steps, the stops are exactly the values in [min, max] that are a whole number of steps above min |
| ScreenshotSettings.QualityStopsAre | src/components/ScreenshotSettings.tsx:175-182 | the quality slider's stops are exactly the multiples of 10 from 10 to 100 |
| ScreenshotSettings.DelayStopsAre | src/components/ScreenshotSettings.tsx:262-269 | the delay slider's stops are exactly the whole seconds from 0 to 10 |
| ScreenshotSettings.ControlUpdate | src/components/ScreenshotSettings.tsx:92-264 | the object each button, select, slider and switch handler passes to `updateConfig`; described by `ControlSetsOneKey` and `SetDevicePreset` |
| ScreenshotSettings.Apply | src/components/ScreenshotSettings.tsx:92-264 | one use of a control; described by `ControlSetsOneKey` and `ApplyKeepsRanges` |
| ScreenshotSettings.ControlSetsOneKey | src/components/ScreenshotSettings.tsx:115-269 | each select, slider and switch sets its own key to the chosen value and leaves the other ten keys unchanged |
| ScreenshotSettings.ApplyKeepsRanges | src/components/ScreenshotSettings.tsx:84-269 | using any control with a value it offers keeps the viewport positive, the quality on a stop in [10,100] and the delay in [0,10] |
| ScreenshotSettings.SelectedSizeListed | src/components/ScreenshotSettings.tsx:115-146 | a width or height chosen through its select is one of the listed sizes and is positive |
| ScreenshotSettings.SlidersInRange | src/components/ScreenshotSettings.tsx:175-269 | the quality set by its slider is a multiple of 10 in [10,100], and the delay is in [0,10] |

## Left out

- Numbers are integers. Fractional values such as a `device_scale_factor` of 1.5, `NaN`, and the float and exponent formatting of `Number.prototype.toString` are not modelled. Falsiness is therefore "absent or 0".
- The width and height selects hand `parseInt` of their item text to the update. The model takes the parsed number of a listed item directly.
- ScreenshotOne.ScreenshotOneApi.TakeScreenshot: `fetch` is a parameter (the response). The `Blob` and the asynchronous throw become a `Result`.
- `takeScreenshotAsDataUrl` (src/lib/screenshotone.ts:73-81) is not part of this model: it only wraps the blob in a `FileReader` callback.
- The demo instance at src/lib/screenshotone.ts:85 is a constant and is not modelled.
- The serializer encodes every Unicode scalar value through UTF-8, as the standard does. JavaScript strings can hold lone surrogates, which `URLSearchParams` replaces with U+FFFD before encoding; the model cannot represent such strings, because a Dafny `char` is a scalar value, so that replacement is not modelled.
- The parser returns `None` on malformed percent-encoded UTF-8, where the standard substitutes U+FFFD. It is used only as the serializer's partner, and it never sees malformed input there.
- The regular expression's `{2,63}` upper bound is part of the declarative pattern. It changes nothing, because the path class after it admits letters.
- Index.tsx: the iframe, the two-second timer, the canvas drawing, the toasts and the DOM link element in `captureScreenshot` and `downloadScreenshot` are left out. The clock value for the file name is a parameter. `CaptureFinished` stands for the three places that clear `isCapturing`, and `BlobReady` for the callback that sets the screenshot; the model does not order them, so a late callback may set the screenshot while a newer capture runs, as in the source.
- Index.tsx never calls the API client or uses the settings record, so nothing links the three parts.
- JSX layout, the feature and example lists, and the open/closed toggle of the settings panel are presentation only.
