# Delivery-zone core in Dafny

This project models the core of a delivery-zone web page for Saint
Petersburg. The page draws the KAD ring road on a map, thickens it into a
zone of a chosen radius, and tells a customer whether an address lies inside
that zone. Four pieces of that core are modelled and proved here:

- **The ring-road path decoder** (`ParseKadCoordinates`). A Yandex Maps `rl`
  value `lng,lat~dlng,dlat~...` holds one absolute point followed by relative
  offsets. `ParseKadCoordinatesFromUrl` is the decoding loop, written as the
  source writes it. It keeps a running longitude and latitude, skips
  malformed segments with `continue`, and appends one `[lat, lng]` point per
  usable offset. It is proved equal to the specification function `Decode`,
  and the properties of decoding are lemmas about `Decode`. The full-URL
  entry point extracts the first `rl=([^&]+)` match, percent-decodes it and
  delegates to the decoder.
- **The ring-road centre and the unit conversions** (`KadCoordinates`). The
  centre is the mean of the ring-road points, or a fixed default when there
  are none. Radii are converted between kilometres and metres.
- **The radius input** (`DistanceInput`). A class holds the text field
  (`inputValue`) and a log of every value reported through `onChange`.
  Typing reports only numbers within `[min, max]`. Leaving the field clamps
  its text into that range. The slider reports whatever it reads.
- **The address-selection state** (`AddressSelection`). A class holds the
  three fields of the hook, with one method per handler. A value-level
  `Step`/`Run` describes sequences of handler calls.

`Strings` models the parts of JavaScript's `String.prototype.split` and
`includes` that the decoder uses. `Numbers` names the number builtins.
`Geo` holds the latitude-first point. `Wrappers` holds `Option` and `Result`.

Numbers are reals. NaN is `None`. `parseFloat`, `Number.prototype.toString`
and `decodeURIComponent` are parameters of the operations that call them.

A corrupt offset segment removes one vertex and moves every later vertex
back by the lost offset, because the accumulator never receives it.
`CorruptOneDelta` proves this. `CorruptionMovesLaterPoints` shows it on
`0,0~1,0~1,0` against `0,0~x~1,0`.

## Model

| member | source | states |
|---|---|---|
| ParseKadCoordinates.ParseKadCoordinatesFromUrl | lib/parse-kad-coordinates.ts:13-63 | The loop (first-point checks, skip-and-continue, running accumulator, one pushed point per usable offset) returns exactly `Decode(rl)`, error cases included |
| ParseKadCoordinates.DecodeFailure | lib/parse-kad-coordinates.ts:22-32 | Decoding fails iff the first segment does not split into exactly two fields or either field is NaN. The first case raises the format error and the second the values error, each carrying the segment. Offset segments never cause a failure |
| ParseKadCoordinates.DecodeEmpty | lib/parse-kad-coordinates.ts:15-25 | The empty input splits to `[""]` and raises the format error; the empty-parts guard is never reached |
| ParseKadCoordinates.DecodeShape | lib/parse-kad-coordinates.ts:34-60 | On success the first point is the first segment's `(lng, lat)` swapped to `(lat, lng)`, so the path is never empty. Its length is one plus the number of well-formed offset segments |
| ParseKadCoordinates.DeltasStep | lib/parse-kad-coordinates.ts:40-52 | A segment with a field count other than two, or with a NaN field, contributes no offset. A well-formed one appends its offset at the end |
| ParseKadCoordinates.WellFormedDeltasAppend | lib/parse-kad-coordinates.ts:39-60 | The offsets used follow segment order: those of a concatenation are those of the parts, concatenated |
| ParseKadCoordinates.TrackSnoc | lib/parse-kad-coordinates.ts:55-59 | Each usable offset appends exactly one point, the accumulator moved by that offset, and becomes the new accumulator |
| ParseKadCoordinates.EndIsSum | lib/parse-kad-coordinates.ts:55-56 | The accumulator after any run of offsets is the start moved by their component-wise sum |
| ParseKadCoordinates.DecodePointAt | lib/parse-kad-coordinates.ts:55-59 | Output point k (k >= 1) is the first point moved by the sum of the first k well-formed offsets |
| ParseKadCoordinates.DecodeExample | lib/parse-kad-coordinates.ts:13-63 | `30.0,60.0~0.1,0.0~0.0,0.1` decodes to `(60, 30), (60, 30.1), (60.1, 30.1)` |
| ParseKadCoordinates.CorruptOneDelta | lib/parse-kad-coordinates.ts:41-59 | Replacing one well-formed offset segment by a malformed one removes exactly one point. Earlier points are unchanged; every later point moves back by the lost offset |
| ParseKadCoordinates.CorruptionMovesLaterPoints | lib/parse-kad-coordinates.ts:41-59 | Concrete instance: the last vertex `(0, 2)` of `0,0~1,0~1,0` has no counterpart in `0,0~x~1,0`, whose points are `(0, 0), (0, 1)` |
| ParseKadCoordinates.FirstRlMatch | lib/parse-kad-coordinates.ts:75 | Finds the leftmost index where `rl=` is followed by a non-`&` character, or reports that none exists |
| ParseKadCoordinates.NonAmpRun | lib/parse-kad-coordinates.ts:75 | The greedy `[^&]+` capture: the longest `&`-free prefix |
| ParseKadCoordinates.RlValueWithoutParameter | lib/parse-kad-coordinates.ts:72-74 | An input without `rl=` reaches the decoder unchanged |
| ParseKadCoordinates.RlValueNotFound | lib/parse-kad-coordinates.ts:74-78 | `rl=` present but never followed by a non-`&` character raises "parameter not found" |
| ParseKadCoordinates.RlValueFound | lib/parse-kad-coordinates.ts:74-81 | With a leftmost match, the decoded text is the maximal non-empty `&`-free run after that `rl=`, percent-decoded; a decoding failure is reported with that run |
| ParseKadCoordinates.ParseKadCoordinatesFromFullUrl | lib/parse-kad-coordinates.ts:70-84 | Extraction errors are returned as they are; otherwise the result is `Decode` of the extracted text |
| Strings.Split | lib/parse-kad-coordinates.ts:15 | `split` yields one more piece than there are separators, so never an empty array |
| Strings.SplitJoin | lib/parse-kad-coordinates.ts:15 | Splitting a `~`-join of `~`-free pieces gives back exactly those pieces |
| Strings.JoinSplit | lib/parse-kad-coordinates.ts:15 | Joining the pieces of a split gives back the input |
| Strings.Contains | lib/parse-kad-coordinates.ts:74 | `includes` holds iff the pattern occurs at some index |
| KadCoordinates.Center | lib/kad-coordinates.ts:5-14 | An empty list gives `(59.9343, 30.3351)`. Otherwise the centre times the count equals the sum of latitudes, and the same for longitudes |
| KadCoordinates.CenterWithinExtremes | lib/kad-coordinates.ts:10-13 | For a non-empty list the centre lies between the least and greatest latitude, and likewise for longitude |
| KadCoordinates.CenterOfCopies | lib/kad-coordinates.ts:10-13 | A list of copies of one point is centred on that point |
| KadCoordinates.KilometersToMeters | lib/kad-coordinates.ts:18-20 | The metre value divided by 1000 is the kilometre value: a kilometre is a thousand metres |
| KadCoordinates.MetersToKilometers | lib/kad-coordinates.ts:22-24 | The kilometre value times 1000 is the metre value |
| KadCoordinates.KilometersRoundTrip | lib/kad-coordinates.ts:18-24 | Kilometres to metres and back is the identity |
| KadCoordinates.MetersRoundTrip | lib/kad-coordinates.ts:18-24 | Metres to kilometres and back is the identity |
| KadCoordinates.ConversionsMonotonic | lib/kad-coordinates.ts:18-24 | Both conversions preserve order in both directions |
| DistanceInput.Blur | components/DistanceInput.tsx:35-46 | NaN or a value below `min` becomes `min`, reported; otherwise a value above `max` becomes `max`, reported (whatever the order of `min` and `max`). The blurred value lies in `[min, max]` when `min <= max`. It is reported iff the text was NaN or out of range, and a value in range is kept |
| DistanceInput.BlurIsNearest | components/DistanceInput.tsx:37-45 | For a number, the blurred value is the point of `[min, max]` nearest to it |
| DistanceInput.BlurIdempotent | components/DistanceInput.tsx:35-46 | Blurring a value that blur produced keeps it and reports nothing |
| DistanceInput.DistanceField.constructor | components/DistanceInput.tsx:16-23 | The text starts as the `value` prop printed; nothing has been reported |
| DistanceInput.DistanceField.WithDefaults | components/DistanceInput.tsx:19-23 | The defaults are `min = 1`, `max = 100`, `step = 1` |
| DistanceInput.DistanceField.HandleChange | components/DistanceInput.tsx:25-33 | The text becomes exactly what was typed. The typed value is reported iff it parses to a number within `[min, max]`. Reports stay within range |
| DistanceInput.DistanceField.HandleBlur | components/DistanceInput.tsx:35-46 | The text becomes the blurred value printed. NaN or below `min` reports `min`, above `max` reports `max`, and in range reports nothing. With `min <= max`, reports stay within range |
| DistanceInput.DistanceField.HandleRangeChange | components/DistanceInput.tsx:48-52 | The slider reading is printed into the text (NaN as `NaN`) and reported without any range check |
| AddressSelection.AddressSelectionState.constructor | hooks/useAddressSelection.ts:13-17 | The initial state is `("", null, null)` |
| AddressSelection.AddressSelectionState.HandleAddressSelect | hooks/useAddressSelection.ts:19-25 | Sets the address and the coordinates; the zone result is left as it was |
| AddressSelection.AddressSelectionState.HandleAddressClear | hooks/useAddressSelection.ts:27-31 | Restores the initial state from any state |
| AddressSelection.AddressSelectionState.HandleZoneCheck | hooks/useAddressSelection.ts:33-35 | Sets the zone result and changes nothing else |
| AddressSelection.ClearIdempotent | hooks/useAddressSelection.ts:27-31 | Clearing twice equals clearing once, and both give the initial state |
| AddressSelection.ClearForgets | hooks/useAddressSelection.ts:27-31 | After a clear, the state depends only on the calls that follow it |
| AddressSelection.ZoneKnownIff | hooks/useAddressSelection.ts:17-35 | The zone result is non-null iff some zone check happened with no clear after it. So it is null initially and after every clear |

## Left out

- Floating point: numbers are reals. The rounding of `+=`, of the mean's
  division and of `/ 1000` is not modelled, and neither are Infinity or
  arithmetic on NaN.
- `parseFloat`, `Number.prototype.toString` and `decodeURIComponent` are
  parameters. Their internals, such as lenient prefix parsing and UTF-8
  decoding, are not modelled.
- `console.warn` on skipped segments is not modelled. The skip itself is.
- Thrown `Error` messages are modelled as `DecodeError` values carrying the
  offending segment or text, not as formatted strings.
- The `parts.length === 0` guard cannot fire, because `split` never returns
  an empty array. The model has no branch for it, and `Strings.Split`
  ensures at least one piece.
- In the `!rlMatch || !rlMatch[1]` guard, the second half cannot fire,
  because the `[^&]+` capture is never empty. Only the no-match case is
  modelled.
- The ring-road point list comes from a mock data module. That module is
  not part of this model, so `Center` takes the list as a parameter.
- DistanceInput.BlurIdempotent is stated on the blur rule alone. At the
  class level it also needs `parseFloat(x.toString()) == x`, a property of
  the builtins outside this model.
- DistanceInput: the React rendering is not modelled, nor are the
  memoisation by `useCallback` and the slider's `value` prop. `step` is
  stored but only the rendering uses it. `onChange` calls are recorded in
  the `reported` log instead of being made.
- AddressSelection: React's batching of state updates is not modelled. A
  new address keeps the previous zone result until the next zone check;
  the model states this as the code does.
- Buffer construction and point-in-zone tests (the turf library), map
  widgets, geocoding, script loading and page layout are not part of this
  model.
