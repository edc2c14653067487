# GiftGenie in Dafny

GiftGenie is a single-page React application. A user describes a gift
recipient (age, occasion, hobbies, budget). The application asks Google's
Gemini model for five gift suggestions aimed at the Indian market, shows
them as cards, and lets the user keep favourites, which survive reloads
in `localStorage`.

This project models the two files that hold the logic:

- `services/geminiService.ts`, module `GeminiService` (`gemini_service.dfy`).
  This is pure code.
  - It builds the prompt from the profile and the request with its response schema.
  - It checks the reply text and derives an id for each suggestion: the first 16 characters of `btoa(giftName + index)`.
  - It turns every failure into one error message.
  - The model call and `JSON.parse` are function parameters: `callModel` and `parse`.
- `btoa` is modelled in module `Base64` (`base64.dfy`) as Base64 encoding with padding (section 4 of RFC 4648) over the Latin-1 code of each character. It fails with `InvalidCharacterError` on any character above U+00FF. A decoder sits beside it so that the encoding is proved injective.
- `App.tsx`, module `App` (`app.dfy`). This code is mixed.
  - The favourites toggle is a pure update of a list: `App.Toggle`.
  - The component's two state slots, `state` and `showSavedOnly`, are the fields of class `App.GiftGenie`. Its methods are the component's handlers: load favourites on mount, the start and end of a fetch, toggling a favourite, and switching between the feed and the saved view. `DisplayedRecommendations` and `IsFavorited` are functions that read those fields.
- `types.ts` becomes the datatypes of module `Types` (`types.dfy`). The field `type` of a recommendation is named `giftType`, because `type` is a Dafny keyword.

Properties of the ids that follow from the code and are proved below:

- Sixteen Base64 characters encode exactly twelve characters. So an id depends only on the first twelve characters of `giftName + index`.
- Two suggestions whose names share their first twelve characters get the same id. This includes the same long name at two positions.
- A single gift name with a character outside Latin-1 makes `btoa` throw. The whole fetch then fails with the generic message.

## Model

| member | source | states |
|---|---|---|
| Base64.Encode | services/geminiService.ts:59 | The encoding of `n` bytes has `4·ceil(n/3)` characters. Those before the final `(3 - n mod 3) mod 3` are alphabet characters; the final ones are `=`. |
| Base64.DecodeEncode | services/geminiService.ts:59 | Decoding the encoding of any byte string gives back exactly that byte string. |
| Base64.EncodeInjective | services/geminiService.ts:59 | Two byte strings with the same encoding are equal. |
| Base64.EncodePrefix | services/geminiService.ts:59 | The first `4k` characters of an encoding are the encoding of the first `3k` bytes. |
| Base64.Btoa | services/geminiService.ts:59 | `btoa` succeeds exactly when every character is Latin-1. On success the length is `4·ceil(n/3)` and every character is in the alphabet or is `=`. |
| Base64.BtoaInjective | services/geminiService.ts:59 | For Latin-1 strings, `btoa` results are equal exactly when the strings are equal. |
| Base64.RfcTestVectors | services/geminiService.ts:59 | `btoa` gives the RFC 4648 section 10 test vectors, from "" through "foobar", so the encoding is the canonical one with zero bits before the padding. |
| Base64.HighByteVector | services/geminiService.ts:59 | Characters U+00FF, U+00FE, U+0000 encode as "//4A": characters above 0x7F are encoded as their Latin-1 byte. |
| GeminiService.PromptCarriesProfile | services/geminiService.ts:8-23 | The prompt holds each profile field verbatim after its label (Age, Occasion, Hobbies/Interests, Budget). Each sits on a line of its own, in that order, right after the fixed header. |
| GeminiService.PromptDeterminesProfile | services/geminiService.ts:8-23 | Two profiles without line breaks in their fields that yield the same prompt are the same profile, so the prompt loses none of the input. |
| GeminiService.Prompt | services/geminiService.ts:8-23 | For every profile, the prompt begins with the fixed header and a line break, and ends with a line break and the fixed guidelines. |
| GeminiService.BuildRequest | services/geminiService.ts:26-51 | The request carries this profile's prompt and asks for `application/json`. Its schema requires exactly its own six declared properties. |
| GeminiService.GiftSchemaRequiresEveryField | services/geminiService.ts:31-47 | The response schema's required list is exactly its six properties, in order and without repeats. `alternatives` is the only array-of-strings property. |
| GeminiService.Prefix | services/geminiService.ts:59 | `substring(0, n)`: the first `n` characters, or the whole string when it is shorter. |
| GeminiService.Decimal | services/geminiService.ts:59 | An index renders as a non-empty string of decimal digits with no leading zero. |
| GeminiService.DecimalValue | services/geminiService.ts:59 | Reading the rendered digits back gives the index. |
| GeminiService.IdKey | services/geminiService.ts:59 | The encoded key is the gift name, then one or more digits. |
| GeminiService.IdKeyDeterminesIndex | services/geminiService.ts:59 | For one gift name, two positions with the same key are the same position. |
| GeminiService.DeriveId | services/geminiService.ts:59 | Deriving an id succeeds exactly when the gift name is Latin-1. The id has `min(16, 4·ceil(n/3))` characters for a key of `n` characters, which is 16 once the key has 10 or more. Every id character is a Base64 alphabet character or `=`. |
| GeminiService.IdEncodesFirstTwelve | services/geminiService.ts:59 | The id is the complete Base64 encoding of the first twelve characters of `giftName + index`, or of the whole key when it is shorter. |
| GeminiService.IdsEqualIffKeyPrefixesEqual | services/geminiService.ts:57-60 | Two ids are equal exactly when their keys agree on their first twelve characters, or are equal when shorter. |
| GeminiService.LongNameIdIgnoresPosition | services/geminiService.ts:57-60 | A Latin-1 gift name of twelve or more characters gets the same id at every position in the list. |
| GeminiService.NormalizeFrom | services/geminiService.ts:57-60 | Mapping from position `start` succeeds exactly when every gift name is Latin-1. The result is as long as the input. Element `i` keeps the six fields of input `i` and carries the id derived for its name at position `start + i`. |
| GeminiService.Normalize | services/geminiService.ts:56-60 | The same statement for the whole parsed array, with positions counted from zero. |
| GeminiService.Attempt | services/geminiService.ts:25-60 | A transport failure, and a missing or empty response text, each give a failure. Success happens exactly when the text is non-empty, parses to an array and every name is Latin-1. The successful list matches the parsed items one by one, in content and id. |
| GeminiService.GetGiftRecommendations | services/geminiService.ts:5-65 | Every failure is thrown as an `Error` whose message is exactly "Failed to fetch recommendations. Please try again.". The call fails exactly when the attempt fails. Otherwise it returns the attempt's list. |
| App.WithoutId | App.tsx:60 | The filtered list has no entry with the id and draws every element from the original. |
| App.WithoutAbsentId | App.tsx:60 | Filtering out an id that is absent leaves the list unchanged. |
| App.WithoutIdAppend | App.tsx:60 | Filtering distributes over concatenation, so it keeps the relative order of what it keeps. |
| App.WithoutIdKeepsOtherIds | App.tsx:60 | After filtering out one id, any other id is present exactly when it was present before. |
| App.Toggle | App.tsx:56-65 | The gift's id is present afterwards exactly when it was absent before, and every other id keeps its presence. An absent gift is appended at the end, with the old list untouched before it. A present gift has all its entries removed: the result is the id filter of the old list, which shrinks and keeps only old entries with other ids. |
| App.ToggleTwiceRestores | App.tsx:56-65 | Toggling a gift that is not a favourite twice gives back the original list. |
| App.ToggleTwiceMovesToEnd | App.tsx:56-65 | Toggling a favourite twice removes its old entries and puts the gift at the end. |
| App.WithoutIdKeepsUnique | App.tsx:60 | Filtering keeps a list free of duplicate ids. |
| App.ToggleKeepsIdsUnique | App.tsx:56-65 | Toggling keeps the favourites free of duplicate ids. |
| App.ErrorMessage | App.tsx:51 | The shown message is the `Error`'s own message, or 'Something went wrong' for any other thrown value. |
| App.ServiceFailureMessage | App.tsx:48-52 | A failed service call always shows "Failed to fetch recommendations. Please try again.". |
| App.GiftGenie.constructor | App.tsx:9-16 | Starts not loading, with no recommendations, no favourites and no error, showing the feed. |
| App.GiftGenie.LoadFavorites | App.tsx:19-29 | A stored value that is present, non-empty and parses replaces the favourites and nothing else. An absent or empty value, or one that fails to parse, leaves the state unchanged. |
| App.GiftGenie.StartFetch | App.tsx:37-38 | Loading starts and the error clears; recommendations and favourites stay; the feed is shown. |
| App.GiftGenie.FinishFetch | App.tsx:39-53 | On success: loading stops, the results replace the recommendations and the error is cleared. On failure: loading stops and the error is set, to the `Error`'s message or to 'Something went wrong' for any other thrown value. The old recommendations stay. Favourites never change. |
| App.GiftGenie.HandleFetchRecommendations | App.tsx:36-54 | After a submission with no other event during the wait, loading has stopped, the feed is shown and the favourites are unchanged. On success the recommendations are the service's list and there is no error. On failure the old recommendations stay and the error reads "Failed to fetch recommendations. Please try again.". |
| App.GiftGenie.ToggleFavorite | App.tsx:56-65 | The favourites become `Toggle` of the old favourites and nothing else changes. A card's favourited state (the id test of line 184) flips. |
| App.GiftGenie.ToggleSavedView | App.tsx:97 | The "Saved Gifts" button flips the view and leaves the state alone. |
| App.GiftGenie.ShowFeed | App.tsx:170 | "Return to Feed" (line 170) and "Go Browsing" (line 225) switch to the feed and leave the state alone. |
| App.GiftGenie.IsFavorited | App.tsx:184 | A card is favourited exactly when some favourite has the card's id, whatever its other fields. |
| App.GiftGenie.DisplayedRecommendations | App.tsx:67 | The saved view shows the favourites, each of them shown as favourited by the id test of line 184; the feed shows the latest recommendations. |

## Left out

- The Gemini client is the parameter `callModel`, so the model itself is not modelled. The same goes for the API key read from `process.env` and the model name `gemini-3-flash-preview`. The request it receives is modelled: `GeminiService.BuildRequest`.
- `JSON.parse` is the parameter `parse` in both files. The model does not cover JSON syntax, or elements that lack a field or carry extra ones. Elements without a usable `giftName` are not modelled. With the name `undefined`, `undefined + idx` is a numeric addition giving `NaN`, so the key is "NaN" and every such element gets the id "TmFO" whatever its position. With the name `null`, `null + idx` is the index itself, so the key is just its digits.
- Writing favourites to `localStorage` (App.tsx:32-34) is left out. It is I/O, and it changes no component state. Reading them is the `saved` parameter of `LoadFavorites`.
- `LoadFavorites` accepts whatever list `parse` returns. Stored JSON that parses to something other than a list of recommendations is not modelled.
- The `console.error` logging and the delayed `scrollIntoView` after a successful fetch are not modelled. Both are side effects on the browser, not on state.
- React's asynchronous batching is not modelled. `HandleFetchRecommendations` runs one submission from start to end with no other event in between. Two cases are not covered by it. One is a second submission overlapping an earlier one. The other is a click on "Saved Gifts" (App.tsx:96-97) while the reply is awaited: only the submit button is disabled while loading, so the click is possible, and the saved view is then shown after the fetch. The separate `StartFetch`, `ToggleSavedView` and `FinishFetch` cover that sequence, because `FinishFetch` leaves `showSavedOnly` as it finds it.
- Rendering is not modelled: the JSX, `GiftCard`, `InputForm`, the empty and loading screens, and the counts in the header. The only rendered facts kept are which list is shown (line 67) and the favourited test (line 184).
- `btoa` works on UTF-16 code units and Dafny's `char` is a Unicode scalar value. A string has a code unit above U+00FF exactly when it has a scalar above U+00FF, so the success condition is the same.
- GeminiService.PromptDeterminesProfile requires fields without line breaks. A profile field holding a newline could imitate the next label, and the form does not forbid one.
