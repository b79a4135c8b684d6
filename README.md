# Valentine Wizard — a Dafny model of its deterministic core

Valentine Wizard is a Next.js application. A user builds a personalised
"sanctuary" for a partner and shares it as a link, in one of two forms:

- an encrypted configuration in the query string (`d`, `iv`) with the AES
  master key in the fragment (`#key`); or
- the generated `#config=` link.

Opening the link shows, in order:

1. an invitation: ten taps on a heart, then a question;
2. a dashboard with countdown-gated Spotify tracks and notes;
3. a photo gallery under scratch-off layers;
4. a passcode-protected "secret cinema".

A separate page revokes a link by deleting its uploaded assets.

This project models the logic under that UI:

- **`Base64`, `Crypto`**: the URL-safe Base64 codec of `src/utils/crypto.ts`.
  - Its two loops are kept as methods over an `array` and a fresh `array`.
  - They are proved against the `btoa`/`atob` behaviour they rely on, which is modelled concretely.
  - The WebCrypto envelope covers `encryptData`/`decryptData`, `deriveKeyFromPasscode`, the HMAC premium signature, and key import/export.
  - The envelope is built over a `Platform` of uninterpreted primitives. Correctness predicates (`AeadCorrect`, `Utf8RoundTrip`, `JsonRoundTrip`, `Pbkdf2Length`) are `requires` of the lemmas that need them.
- **`Config`**: `ValentineConfig` and the tier fields the components read. It also holds `localStorage` as a `map<string, string>` and JavaScript truthiness.
- **`Dates`**: the countdown arithmetic of `src/utils/date.ts`, with the current time and the Feb-N target taken as millisecond parameters. The anniversary date is a class holding the module-level variable.
- **`Context`**: the `ValentineProvider` state machine.
  - On load it decrypts the link and derives `isLocked`; the path `/wizard` selects wizard mode.
  - `decryptWithPasscode` merges both inner envelopes, or nothing.
- **`Revoke`**: the revoke page's phase machine and its ordered asset collection.
- **`Passcode`, `Dashboard`, `Cinema`**:
  - the four-box passcode entry shared by the lock screen and the cinema;
  - the Spotify list;
  - the `safeId` sanitiser;
  - note reveal gating;
  - the cinema's unlock and track list.
- **`Gallery`**: the unlocked-image list and the lightbox index arithmetic.
- **`Wizard`**: the link builder.
  - Its configuration is a JSON value tree.
  - `updateConfig` walks a dotted path in a loop and writes in place.
  - It also covers note add, remove and edit, the Spotify-id and passcode filters, and the step counter.
- **`Invitation`, `Scratch`, `Home`**:
  - the tap counter and phases;
  - the stride-4 alpha scan and the reveal threshold;
  - the landing page's choice between invitation and dashboard.

Components whose state the source updates step by step are classes:
`ValentineProvider`, `RevokePage`, `LockScreen`, `UnlockableNote`,
`SecretCinema`, `WizardPage`, `InvitationCard`, `ScratchCard`, `HomePage`
and `AnniversaryClock`. Pure computations are functions, each with lemmas
relating it to an independent statement of what the source promises.

Where the source's own declarations (the `plan` union at src/utils/config.ts:8, the `spotifyTracks` record type at src/utils/config.ts:15) or WebCrypto's documented key lengths say one thing and the code does another, the model follows the code:

- `importKey` accepts 16-, 24- and 32-byte raw keys, as WebCrypto does.
- `atob` leniently accepts standard-alphabet characters, ASCII whitespace and `=` padding, so `fromBase64URL` accepts more than the URL alphabet.
- The cinema compares `plan` with `'pro'`, a value outside the declared plan union.
- The `spotifyTracks.extra` list is read although the record type holds only strings.
- `getSpotifyItems` sorts a list it built in strictly descending day order, so the sort is modelled as a reversal.

## Model

| member | source | states |
|---|---|---|
| Base64.StdSymbol | src/utils/crypto.ts:19 | each 6-bit value has a standard-alphabet symbol, never `=`, that decodes back to the value |
| Base64.Sextets | src/utils/crypto.ts:19 | `btoa` splits n bytes into 4*(n/3)+[0,2,3][n%3] six-bit values |
| Base64.Unsextets | src/utils/crypto.ts:30 | `atob` regroups six-bit values into bytes; defined for lengths not 1 mod 4, with the matching length |
| Base64.UnsextetsOfSextets | src/utils/crypto.ts:19-30 | regrouping the six-bit split of any byte string gives back the bytes |
| Base64.SextetsOfUnsextets | src/utils/crypto.ts:19-30 | a canonical symbol string (zero discarded bits) is re-split into the same values |
| Base64.ValuesOfSymbols | src/utils/crypto.ts:19-30 | symbol strings are standard-alphabet and decode back to their values |
| Base64.SymbolsOfValues | src/utils/crypto.ts:19-30 | every standard-alphabet string is the symbol string of its values |
| Base64.Repeat | src/utils/crypto.ts:29 | `'='.repeat(n)` has length n and holds only `=` |
| Base64.StdEncode | src/utils/crypto.ts:19 | the padded encoding has 4 chars per started group of 3 bytes, all standard symbols or `=` |
| Base64.Atob | src/utils/crypto.ts:30 | a decoded binary string holds only code units below 256 |
| Base64.BinaryString | src/utils/crypto.ts:15-18 | `String.fromCharCode` per byte gives one char per byte, each below 256 |
| Base64.CodeUnits | src/utils/crypto.ts:32-34 | `charCodeAt` per char keeps the length |
| Base64.CodeUnitsOfBinary | src/utils/crypto.ts:15-34 | char codes of the binary string are the original bytes |
| Base64.Btoa | src/utils/crypto.ts:19 | `btoa` succeeds exactly when every code unit is below 256 |
| Base64.BtoaOfBinaryString | src/utils/crypto.ts:15-19 | `btoa` of the binary string is the standard padded encoding |
| Base64.DropPadding | src/utils/crypto.ts:30 | `atob` drops at most two trailing `=`, and only `=` |
| Base64.AtobAccepts | src/utils/crypto.ts:30 | `atob` succeeds iff, after whitespace removal and unpadding, the text is standard-alphabet with length not 1 mod 4 |
| Base64.AtobOfSymbols | src/utils/crypto.ts:30 | a symbol string with completing padding decodes to the regrouped bytes |
| Base64.AtobOfStdEncode | src/utils/crypto.ts:19-30 | `atob` inverts `btoa` on every byte string |
| Crypto.ToUrl | src/utils/crypto.ts:20 | `+` becomes `-` and `/` becomes `_`, every other char kept, position by position |
| Crypto.FromUrl | src/utils/crypto.ts:27 | `-` becomes `+` and `_` becomes `/`, position by position |
| Crypto.StripTrailingEquals | src/utils/crypto.ts:20 | `replace(/=+$/, '')` keeps a prefix that does not end in `=`, and removes only `=` |
| Crypto.EncodeUrl | src/utils/crypto.ts:13-21 | the output is a prefix of the URL-alphabet standard encoding, and only `=` padding is dropped |
| Crypto.Refill | src/utils/crypto.ts:28-29 | appends `4 - len%4` `=` exactly when `len%4 != 0`, else none |
| Crypto.CharCodes | src/utils/crypto.ts:31-34 | one byte per char of the binary string |
| Crypto.DecodeUrl | src/utils/crypto.ts:26-36 | decoding fails exactly where `atob` throws on the repadded text, else one byte per decoded char |
| Crypto.ToBase64Url | src/utils/crypto.ts:13-21 | the byte loop and the replacements compute the URL-safe encoding of the buffer |
| Crypto.FromBase64Url | src/utils/crypto.ts:26-36 | the repadding, `atob` and the filling loop compute the decoding, `None` where `atob` throws |
| Crypto.CopyCharCodes | src/utils/crypto.ts:31-34 | the filling loop stores the code of every character, in order |
| Crypto.EncodeUrlShape | src/utils/crypto.ts:13-21 | the encoding is the URL-alphabet symbols of the six-bit split, unpadded |
| Crypto.EncodeUrlAlphabet | src/utils/crypto.ts:20 | the encoding contains only URL-alphabet chars, never `+`, `/` or `=` |
| Crypto.EncodeUrlLength | src/utils/crypto.ts:19-20 | the encoded length is 4*(n/3)+[0,2,3][n%3], never 1 mod 4 |
| Crypto.DecodeUrlSymbols | src/utils/crypto.ts:26-36 | any URL symbol string of length not 1 mod 4 decodes to the regrouped bytes |
| Crypto.RefillCompletes | src/utils/crypto.ts:28-29 | for lengths not 1 mod 4 the refill is at most two `=` and completes a group |
| Crypto.RoundTrip | src/utils/crypto.ts:13-36 | decoding the encoding of any byte string gives back the bytes, for all lengths mod 3 |
| Crypto.DecodeRejectsLengthOneModFour | src/utils/crypto.ts:28-30 | an input of length 1 mod 4 is rejected |
| Crypto.DecodeRejectsForeignCharacter | src/utils/crypto.ts:27-30 | an input with a char outside both alphabets, `=` and whitespace is rejected |
| Crypto.DecodeAcceptsUrlStrings | src/utils/crypto.ts:26-36 | a URL-alphabet string decodes iff its length is not 1 mod 4 |
| Crypto.CanonicalRoundTrip | src/utils/crypto.ts:13-36 | a canonical URL string decodes and re-encodes to itself |
| Crypto.GenerateMasterKey | src/utils/crypto.ts:41-47 | a 256-bit AES key, exported as 43 characters |
| Crypto.ImportKey | src/utils/crypto.ts:54-63 | import succeeds iff the text decodes to 16, 24 or 32 bytes, which become the key |
| Crypto.ExportKey | src/utils/crypto.ts:49-52 | the exported text is URL-alphabet and decodes back to the raw key bytes |
| Crypto.ImportExportedKey | src/utils/crypto.ts:49-63 | importing an exported key gives back the key |
| Crypto.EncryptData | src/utils/crypto.ts:65-79 | the fresh 12-byte IV is returned as a 16-character string that decodes to it |
| Crypto.DecryptData | src/utils/crypto.ts:81-92 | a result implies both the ciphertext and the IV decoded |
| Crypto.EncryptDecrypt | src/utils/crypto.ts:65-92 | decrypting with the same key gives back the data |
| Crypto.DeriveKeyFromPasscode | src/utils/crypto.ts:98-119 | the key is PBKDF2-SHA256 with 310000 iterations and a 256-bit output over the UTF-8 passcode and salt, 32 bytes long |
| Crypto.SignPremiumPlan | src/utils/crypto.ts:124-136 | succeeds iff the secret is non-empty; the signature decodes to the HMAC of `plan:partnerNames` |
| Crypto.VerifyPremiumPlan | src/utils/crypto.ts:138-149 | answers iff the secret is non-empty and the signature decodes, and then true exactly when the decoded signature is the HMAC-SHA256 of `plan:partnerNames` under the UTF-8 secret |
| Crypto.SignThenVerify | src/utils/crypto.ts:124-149 | a signature verifies under the same plan, names and secret |
| Crypto.VerifyOtherPayload | src/utils/crypto.ts:133-148 | a signature verifies for another payload only on an HMAC collision |
| Crypto.PayloadInjective | src/utils/crypto.ts:133 | for colon-free plans, `plan:partnerNames` determines plan and names |
| Config.Lookup | src/components/Gallery.tsx:38 | a record entry is found iff the key is present, with its own list |
| Config.StoredTrue | src/components/ScratchOffImage.tsx:24-25 | a flag reads as set only when its key is stored, with the value "true" |
| Config.StoredTrueAfterSet | src/components/ScratchOffImage.tsx:89 | `setItem(key, "true")` sets the flag; writing another key leaves it as it was |
| Dates.AnniversaryClock.constructor | src/utils/date.ts:3 | the date starts at 2022-07-28T00:00:00 |
| Dates.AnniversaryClock.SetAnniversaryDate | src/utils/date.ts:5-7 | overwrites the single date |
| Dates.GetTimeUntil | src/utils/date.ts:45-57 | zeros when the target has passed; otherwise minutes and seconds in [0,60) and the whole seconds of the difference |
| Dates.TimeLeftUnique | src/utils/date.ts:52-54 | the decomposition is the only one with those bounds |
| Dates.GetDaysUntil | src/utils/date.ts:59-65 | never negative; the ceiling of the difference in days when positive |
| Dates.UnlockMonotone | src/utils/date.ts:33-43 | what is unlocked stays unlocked as time passes |
| Dates.IsTrackUnlocked | src/utils/date.ts:33-43 | the debug flag unlocks; otherwise unlocked exactly when no days are left until the target |
| Dates.UnlockedMeansNoTimeLeft | src/utils/date.ts:41-54 | while a track is unlocked the countdown reads zero |
| Dates.ZeroCountdownWhileLocked | src/utils/date.ts:41-54 | in the last second the countdown reads zero while the track is still locked |
| Dates.GetCurrentPhase | src/utils/date.ts:22-31 | dashboard iff now is at or after Feb 14 |
| Context.Fragment | src/utils/ValentineContext.tsx:34 | `hash.slice(1)` drops exactly the leading character |
| Context.HasLink | src/utils/ValentineContext.tsx:36 | decryption starts only with non-empty `d`, `iv` and a key fragment after `#` |
| Context.OuterDecrypt | src/utils/ValentineContext.tsx:39-44 | no config without a key imported from the fragment, nor without a decodable ciphertext and IV; `OuterDecryptOfLink` proves a built link opens |
| Context.OuterDecryptOfLink | src/utils/ValentineContext.tsx:36-44 | a link built from a config, key and IV opens to that config |
| Context.PasscodeUnlock | src/utils/ValentineContext.tsx:64-89 | succeeds iff the salt and both envelopes are present and both inner decryptions under the derived key succeed; then notes and videoUrl become exactly those two results and nothing else changes |
| Context.PasscodeUnlockOfTier | src/utils/ValentineContext.tsx:69-87 | envelopes made under the derived key merge their notes and video |
| Context.ValentineProvider.constructor | src/utils/ValentineContext.tsx:19-21 | no config, not wizard mode, not locked |
| Context.ValentineProvider.SetPreviewConfig | src/utils/ValentineContext.tsx:23-28 | replaces the config; the date moves only for a non-null config |
| Context.ValentineProvider.Mount | src/utils/ValentineContext.tsx:30-62 | decrypts only with `d`, `iv` and fragment present; locked iff the salt is set; wizard mode only without a link on `/wizard` |
| Context.ValentineProvider.DecryptWithPasscode | src/utils/ValentineContext.tsx:64-94 | true iff both inner decryptions succeed, then merged and unlocked; otherwise nothing changes |
| Revoke.FlattenMember | src/app/revoke/page.tsx:36-40 | a URL is collected iff some gallery list holds it |
| Revoke.FlattenAppend | src/app/revoke/page.tsx:37-39 | each `forEach` step appends that list |
| Revoke.Flatten | src/app/revoke/page.tsx:36-40 | galleries of empty lists contribute no URL; membership and prefix growth are stated by Revoke.FlattenMember and Revoke.FlattenAppend |
| Revoke.AssetUrlsMembers | src/app/revoke/page.tsx:33-40 | a URL is an asset iff it is the truthy background, the truthy video or in a gallery list |
| Revoke.AssetUrls | src/app/revoke/page.tsx:33-40 | a truthy background comes first, and a truthy video right after it |
| Revoke.NoAssetsIff | src/app/revoke/page.tsx:33-44 | no assets iff no truthy background, no truthy video and every gallery list empty |
| Revoke.CollectAssets | src/app/revoke/page.tsx:33-40 | the `push` loop yields background, video, then the gallery lists in order |
| Revoke.PushGallery | src/app/revoke/page.tsx:37-39 | the `forEach` appends every gallery list in entry order |
| Revoke.VerifiedLink | src/app/revoke/page.tsx:21-48 | confirms iff the link has `d`, `iv`, the key, decrypts, and has assets; the payload is that triple and the asset list is exactly `AssetUrls` of the decrypted config |
| Revoke.RevokePage.constructor | src/app/revoke/page.tsx:11-14 | idle, no error, no assets, no payload |
| Revoke.RevokePage.HandleVerify | src/app/revoke/page.tsx:16-53 | confirming with exactly the assets and `(d, iv, k)`; otherwise error, with the invalid-link text for an incomplete link, the no-assets text for a config without assets, and `e.message` or "Failed to parse link." where parsing or decryption throws |
| Revoke.RevokePage.Fail | src/app/revoke/page.tsx:49-52 | error phase with the message or the fallback text |
| Revoke.RevokePage.ExecuteDelete | src/app/revoke/page.tsx:55-78 | nothing without a payload; else sends the assets with the payload, success iff the server says so; the error is `data.error ||` the fallback or the thrown message, and is kept on success |
| Revoke.RevokePage.Cancel | src/app/revoke/page.tsx:146 | back to idle, nothing else changes |
| Passcode.EnterDigit | src/components/Dashboard.tsx:132-137 | rejects a value with a non-digit; else writes only position `index`, with the last char |
| Passcode.EnterKeepsWellFormed | src/components/Dashboard.tsx:132-137 | entry keeps four boxes of at most one digit |
| Passcode.Joined | src/components/Dashboard.tsx:145 | `join` of digit boxes is digits, of filled boxes is at least as long as the boxes, of empty boxes is empty |
| Passcode.Complete | src/components/Dashboard.tsx:155 | every box filled, so the joined code has at least one char per box |
| Passcode.CompleteJoinsToFourDigits | src/components/Dashboard.tsx:145-158 | four filled boxes join to their four digits |
| Passcode.TypingFourDigits | src/components/SecretCinema.tsx:32-38 | typing four digits into the blank boxes fills them in order |
| Passcode.BlankNotComplete | src/components/SecretCinema.tsx:13 | the blank entry does not trigger a check |
| Passcode.NextFocus | src/components/SecretCinema.tsx:40-43 | focus moves on iff the value is non-empty and the index is below 3 |
| Passcode.BackspaceFocus | src/components/SecretCinema.tsx:46-51 | Backspace on an empty box moves back exactly when the index is above 0 |
| Dashboard.LockScreen.constructor | src/components/Dashboard.tsx:96-99 | blank boxes, not verifying, no error |
| Dashboard.LockScreen.HandleInput | src/components/Dashboard.tsx:132-141 | ignores non-digits; otherwise the entry step, and the error cleared |
| Dashboard.LockScreen.HandleUnlock | src/components/Dashboard.tsx:143-152 | success iff the provider unlocks with the joined boxes; failure blanks the boxes and sets the error |
| Dashboard.LockScreen.OnPasscodeChange | src/components/Dashboard.tsx:154-158 | an unlock is attempted exactly when all four boxes are filled; success merges `PasscodeUnlock` into the provider and unlocks it, failure blanks the boxes, sets the error and leaves the provider unchanged |
| Dashboard.Title | src/components/Dashboard.tsx:204 | "Feb 14: The Finale" exactly for day 14, and "Feb <day>: The Countdown" with the day in decimal for every other day |
| Dashboard.TrackFor | src/components/Dashboard.tsx:200 | the `spotifyTracks` entry at key `day<n>` is present exactly when that key is set, and is then its value |
| Dashboard.DayKeyInjective | src/components/Dashboard.tsx:200 | distinct days look up distinct `day<n>` keys |
| Dashboard.ItemFor | src/components/Dashboard.tsx:201-205 | the pushed item carries the day, its track lookup and its title |
| Dashboard.Reversed | src/components/Dashboard.tsx:207 | element k of the reversal is element `len-1-k` of the input |
| Dashboard.ReversedPermutes | src/components/Dashboard.tsx:207 | the reversal is a permutation |
| Dashboard.PushDays | src/components/Dashboard.tsx:198-206 | round `i` of the loop pushes the item for day `14 - i`; `max(n, 0)` items |
| Dashboard.GetSpotifyItems | src/components/Dashboard.tsx:195-208 | `totalDays || 3` items for days 15-n..14, strictly ascending, each with its track and title |
| Dashboard.SafeId | src/components/Dashboard.tsx:266 | keeps presence; only ASCII letters and digits remain |
| Dashboard.SafeIdIdempotent | src/components/Dashboard.tsx:266 | sanitising twice is sanitising once |
| Dashboard.SafeIdFixesAlnum | src/components/Dashboard.tsx:266 | an id is unchanged iff it is ASCII alphanumeric |
| Dashboard.SafeIdAppend | src/components/Dashboard.tsx:266 | sanitising distributes over concatenation |
| Dashboard.ShowsPlayer | src/components/Dashboard.tsx:266-278 | the player is embedded only on an unlocked day (or the debug flag) with a non-empty, ASCII-alphanumeric cleaned id |
| Dashboard.ShowsPlayerStays | src/components/Dashboard.tsx:266-278 | once a card embeds the player it keeps doing so as time passes |
| Dashboard.NoPlayerWithoutAlnum | src/components/Dashboard.tsx:266-278 | an id without letters or digits never embeds the player |
| Dashboard.PartnerNames | src/components/Dashboard.tsx:112 | the first name, a `:`, then the second name |
| Dashboard.TotalDays | src/components/Dashboard.tsx:197 | `totalDays || 3` is never 0: the configured count, or 3 when it is 0 |
| Dashboard.PartnerNamesAmbiguous | src/components/Dashboard.tsx:112 | two different couples can give the same signed payload |
| Dashboard.UnlockableNote.constructor | src/components/Dashboard.tsx:35-39 | not done, not unlocked, with the first countdown |
| Dashboard.UnlockableNote.StorageKey | src/components/Dashboard.tsx:39 | the key is `user_unlocked_` followed by the note id |
| Dashboard.UnlockableNote.Mount | src/components/Dashboard.tsx:41-43 | unlocked iff the note's flag is stored |
| Dashboard.UnlockableNote.Tick | src/components/Dashboard.tsx:44-51 | the countdown refreshed; done iff less than a second remains |
| Dashboard.UnlockableNote.HandleUnlock | src/components/Dashboard.tsx:56-59 | stores the flag and unlocks |
| Dashboard.UnlockableNote.View | src/components/Dashboard.tsx:61-90 | the content shows iff done and unlocked; the countdown iff not done |
| Cinema.SecretCinema.constructor | src/components/SecretCinema.tsx:13-17 | blank boxes, locked, no error, cinema closed, empty track |
| Cinema.UnlockKey | src/components/SecretCinema.tsx:26 | `secret_cinema_unlocked_` followed by the passcode (the literal `undefined` without a configuration) |
| Cinema.UnlockKeyInjective | src/components/SecretCinema.tsx:26 | two configurations share the flag only when they share the passcode |
| Cinema.SecretCinema.OnConfigChange | src/components/SecretCinema.tsx:19-30 | selects the day-12 track; unlocks when the flag for this passcode is stored |
| Cinema.SecretCinema.HandleInput | src/components/SecretCinema.tsx:32-44 | ignores non-digits; otherwise the entry step, and the error cleared |
| Cinema.SecretCinema.CheckPasscode | src/components/SecretCinema.tsx:53-70 | unlocks and stores the flag iff the joined boxes equal the passcode; else blanks and errors |
| Cinema.SecretCinema.OnPasscodeChange | src/components/SecretCinema.tsx:72-76 | checks exactly when all four boxes are filled: a match unlocks and stores the flag, a mismatch blanks the boxes and sets the error, no config changes nothing |
| Cinema.Extras | src/components/SecretCinema.tsx:84 | extra ids titled "Extra Song k" from k = 1 |
| Cinema.DayTrack | src/components/SecretCinema.tsx:81-83 | `spotifyTracks.dayN` is present exactly when that key is set, and is then its value |
| Cinema.Tracks | src/components/SecretCinema.tsx:80-85 | day 12, 13, 14, then the extras |
| Cinema.Displayed | src/components/SecretCinema.tsx:101 | only truthy ids are shown |
| Cinema.DisplayedMembers | src/components/SecretCinema.tsx:101 | a track is shown iff it is listed and has a truthy id |
| Cinema.VideoSource | src/components/SecretCinema.tsx:131 | the custom video exactly for plan `pro` with a non-empty URL, else the default |
| Cinema.DeclaredPlansPlayDefault | src/components/SecretCinema.tsx:131 | every declared plan plays the default video |
| Gallery.SectionImages | src/components/Gallery.tsx:38-57 | only a missing per-day entry falls back to the built-in list |
| Gallery.AllSections | src/components/Gallery.tsx:59-63 | three sections, days 12, 13, 14 in order, reading the `day12`..`day14` gallery entries with their defaults, from folders `day1`..`day3` |
| Gallery.FullSrc | src/components/Gallery.tsx:68 | `http` sources kept, others under `/assets/images/<folder>/` |
| Gallery.SectionEntries | src/components/Gallery.tsx:67-70 | one entry per image, with full source and `gallery_<day>_<idx>` |
| Gallery.ImageId | src/components/Gallery.tsx:69 | every id starts with `gallery_` |
| Gallery.ImageIdInjective | src/components/Gallery.tsx:69 | equal ids come from the same day and the same index |
| Gallery.UnlockedImages | src/components/Gallery.tsx:65-72 | the `flatMap` has as many images as the unlocked sections hold; order is stated by Gallery.UnlockedImagesAt |
| Gallery.UnlockedImagesAppend | src/components/Gallery.tsx:65-72 | the `flatMap` of two runs of sections is the concatenation of theirs |
| Gallery.UnlockedImagesFirst | src/components/Gallery.tsx:65-72 | an unlocked first section opens the list with its own entries |
| Gallery.UnlockedImagesAt | src/components/Gallery.tsx:65-72 | image i of unlocked section k sits at the count of unlocked images before k, plus i |
| Gallery.UnlockedImagesMembers | src/components/Gallery.tsx:65-72 | an image is listed iff it is an entry of an unlocked section |
| Gallery.UnlockedImagesLength | src/components/Gallery.tsx:65-72 | the list holds exactly the unlocked sections' images; none when nothing is unlocked |
| Gallery.FindIndex | src/components/Gallery.tsx:75 | the first index with the id, or -1 iff there is none |
| Gallery.HandleImageClick | src/components/Gallery.tsx:74-77 | opens on the first matching image; no match leaves the index alone |
| Gallery.OnNext | src/components/Gallery.tsx:138 | null stays null; index i moves to i+1, and the last image to the first |
| Gallery.OnPrev | src/components/Gallery.tsx:137 | null stays null; index i moves to i-1, and the first image to the last |
| Gallery.NextPrevInverse | src/components/Gallery.tsx:137-138 | next and previous undo each other, and wrap at both ends |
| Gallery.ViewSection | src/components/Gallery.tsx:84-128 | an unlocked empty section renders nothing, unlocked shows photos, locked the countdown |
| Wizard.SetPath | src/app/wizard/page.tsx:26-35 | a successful write keeps the root an object, adding at most the first key |
| Wizard.SetPathSucceeds | src/app/wizard/page.tsx:29-33 | the write succeeds iff the path minus its last key leads to an object |
| Wizard.GetAfterSet | src/app/wizard/page.tsx:33 | reading the written path gives the written value |
| Wizard.SetLeavesOthers | src/app/wizard/page.tsx:26-35 | any path diverging from the written one reads the same before and after |
| Wizard.TrackIdIsLastSegment | src/app/wizard/page.tsx:136 | the track is the text after the last `/` up to the next `?`, holding neither; a bare id is kept |
| Wizard.ExtractTrackId | src/app/wizard/page.tsx:136 | the stored id never contains `/` or `?` |
| Wizard.DigitsOnly | src/app/wizard/page.tsx:222 | only digits remain |
| Wizard.DigitsOnlyKeepsDigits | src/app/wizard/page.tsx:222 | a digit string is kept; filtering is idempotent |
| Wizard.RemoveIndexDropsOne | src/app/wizard/page.tsx:193 | removal drops exactly element `idx`, keeping the order; an out-of-range index removes nothing |
| Wizard.RemoveIndex | src/app/wizard/page.tsx:193 | `filter((_, i) => i !== idx)` is one shorter for an index in range and keeps the length otherwise |
| Wizard.NewNote | src/app/wizard/page.tsx:204 | the added note has id `note<now>`, day 14 and empty content |
| Wizard.InitialConfig | src/app/wizard/page.tsx:11-21 | the initial draft has the date part of today, passcode "1234", two notes and empty tracks for days 12 to 14 |
| Wizard.SetNoteField | src/app/wizard/page.tsx:169-185 | edits only that note's field; fails iff the note is missing or not an object |
| Wizard.WalkToParent | src/app/wizard/page.tsx:29-32 | the walk reaches an object for the last key iff the write can succeed |
| Wizard.Rebuild | src/app/wizard/page.tsx:33 | the in-place assignment, seen from the root, is the path write |
| Wizard.WizardPage.constructor | src/app/wizard/page.tsx:10-23 | step 1, the initial configuration, no link |
| Wizard.WizardPage.UpdateConfig | src/app/wizard/page.tsx:26-35 | the new config is the path write, or unchanged when the walk throws |
| Wizard.WizardPage.SetTrack | src/app/wizard/page.tsx:136 | stores the extracted track id under `spotifyTracks.dayN` |
| Wizard.WizardPage.SetPasscode | src/app/wizard/page.tsx:222 | the stored passcode is all digits |
| Wizard.WizardPage.SetNotes | src/app/wizard/page.tsx:171 | the note list is replaced |
| Wizard.WizardPage.RemoveNote | src/app/wizard/page.tsx:192-195 | the stored notes lose exactly note `idx` |
| Wizard.WizardPage.AddNote | src/app/wizard/page.tsx:203-206 | appends one day-14 note with empty content, older notes unchanged |
| Wizard.WizardPage.EditNote | src/app/wizard/page.tsx:168-186 | only note `idx`'s `day` or `content` changes |
| Wizard.WizardPage.Previous | src/app/wizard/page.tsx:270 | one step back, clamped at 1 |
| Wizard.WizardPage.Next | src/app/wizard/page.tsx:277-279 | one step forward, offered only below step 5 |
| Wizard.WizardPage.Generate | src/app/wizard/page.tsx:37-42 | step 6 with the `/#config=` link |
| Invitation.Rank | src/components/Invitation.tsx:16 | orders tapping, question, teaser |
| Invitation.InvitationCard.constructor | src/components/Invitation.tsx:15-17 | no taps, tapping, button at the origin |
| Invitation.InvitationCard.HandleTap | src/components/Invitation.tsx:28-35 | one more tap; question from the tenth; the phase never moves back |
| Invitation.InvitationCard.HandleYes | src/components/Invitation.tsx:53-66 | moves forward to the teaser |
| Invitation.InvitationCard.ResetNoButton | src/components/Invitation.tsx:19-21 | the "no" button back at (0,0) |
| Scratch.AlphaZero | src/components/ScratchOffImage.tsx:82-84 | the count of zero alpha bytes is at most len/4 |
| Scratch.AlphaZeroExtremes | src/components/ScratchOffImage.tsx:82-84 | a clean layer counts every pixel, an opaque one none |
| Scratch.CountTransparent | src/components/ScratchOffImage.tsx:80-84 | the stride-4 loop counts exactly the zero alpha bytes at 3, 7, 11, … |
| Scratch.Reveals | src/components/ScratchOffImage.tsx:86-87 | more than 45% transparent pixels reveals, which needs a non-empty layer and a cleared pixel |
| Scratch.RevealsMonotone | src/components/ScratchOffImage.tsx:86-87 | clearing more pixels never hides the photo again |
| Scratch.RevealThreshold | src/components/ScratchOffImage.tsx:86-87 | a clean layer is revealed, an opaque one never |
| Scratch.ScratchCard.StorageKey | src/components/ScratchOffImage.tsx:19 | the key is `scratch_<id>` |
| Scratch.ScratchCard.constructor | src/components/ScratchOffImage.tsx:17-21 | covered, not initialised, no photo loaded |
| Scratch.ScratchCard.Mount | src/components/ScratchOffImage.tsx:23-29 | a stored flag restores the scratched state |
| Scratch.ScratchCard.ImageLoad | src/components/ScratchOffImage.tsx:150 | the photo is marked loaded |
| Scratch.ScratchCard.PointerDown | src/components/ScratchOffImage.tsx:93-97 | a drag starts only while the handlers are installed |
| Scratch.ScratchCard.PointerUp | src/components/ScratchOffImage.tsx:98-103 | only a drag's end measures; over 45% uncovers and stores the flag |
| Home.CompletedKeyInjective | src/app/page.tsx:18 | different couples have different completion flags |
| Home.CompletedKey | src/app/page.tsx:18 | `valentine_completed_` followed by the JSON of the names |
| Home.Decide | src/app/page.tsx:18-25 | dashboard iff the couple's flag is stored or Feb 14 has come |
| Home.View | src/app/page.tsx:28-70 | landing without config, spinner while loading, then the chosen screen |
| Home.HomePage.constructor | src/app/page.tsx:12 | starts loading |
| Home.HomePage.OnConfigChange | src/app/page.tsx:15-26 | no decision without config; otherwise the decision |
| Home.HomePage.OnComplete | src/app/page.tsx:62-64 | stores the couple's flag and shows the dashboard |
| Home.CompletionSticks | src/app/page.tsx:18-22 | after completion every later load shows the dashboard |
| Home.OtherCouplesFlag | src/app/page.tsx:18-25 | another couple's flag does not skip this couple's invitation |
| Text.Filter | src/components/Dashboard.tsx:266 | `replace` with a negated class keeps only accepted chars, never lengthening |
| Text.FilterAppend | src/components/Dashboard.tsx:266 | filtering distributes over concatenation |
| Text.FilterKeepsAll | src/app/wizard/page.tsx:222 | a string of accepted chars is kept |
| Text.FilterDropsAll | src/components/Dashboard.tsx:266 | a string with no accepted char filters to the empty string |
| Text.LastChar | src/components/Dashboard.tsx:135 | `slice(-1)` is empty or the last char |
| Text.Split | src/app/wizard/page.tsx:136 | `split` never gives an empty list |
| Text.SplitPieces | src/app/wizard/page.tsx:136 | no piece of a split holds the separator |
| Text.JoinSplit | src/app/wizard/page.tsx:136 | joining the pieces gives back the string |
| Text.SplitLast | src/app/wizard/page.tsx:136 | `pop()` of a split is the text after the last separator |
| Text.SplitFirst | src/app/wizard/page.tsx:136 | `[0]` of a split is the text before the first separator |
| Text.IndexOf | src/app/wizard/page.tsx:136 | the first occurrence, or the length when there is none |
| Text.AfterLast | src/app/wizard/page.tsx:136 | just after the last occurrence, or 0 |
| Text.NatToString | src/components/Dashboard.tsx:204 | decimal notation is non-empty digits; with Text.NatToStringValue and Text.NatToStringInjective it denotes the number and tells numbers apart |
| Text.NatToStringValue | src/components/Dashboard.tsx:204 | the digits read back in base ten give the number |
| Text.NatToStringInjective | src/components/Dashboard.tsx:204 | distinct numbers have distinct decimal notations |
| Text.IntToString | src/components/Gallery.tsx:69 | template interpolation of an integer is digits with a leading `-` exactly for a negative one |
| Text.IntToStringInjective | src/components/Gallery.tsx:69 | distinct integers interpolate to distinct text |
| Text.FirstSeparator | src/components/Gallery.tsx:69 | a separator absent from `a` is first found right after `a` |
| Text.SplitAtSeparator | src/components/Gallery.tsx:69 | texts joined by a separator absent from the first part split back uniquely |

## Left out

- WebCrypto internals are not modelled. This covers AES-GCM, PBKDF2, HMAC-SHA256 and the random generator. They are fields of `Platform`, and their correctness is stated as predicates that the lemmas require.
- `TextEncoder`/`TextDecoder` and `JSON.stringify`/`parse` are uninterpreted in the same way.
- Crypto.GenerateMasterKey: the 32 random bytes are a parameter; there is no randomness.
- Crypto.EncryptData: the fresh IV is a parameter. Freshness across calls is not modelled.
- The clock is not modelled:
  - `new Date()` and the local-time construction of the Feb-N targets are millisecond parameters.
  - `getTimeTogether` (date-fns) is not part of this model; only the date it reads is.
- Floating point is not modelled:
  - `Math.ceil`, `Math.floor` and the scratch percentage are exact integer arithmetic on millisecond and byte counts.
  - Rounding at the 45% boundary is not represented.
- Scratch.PointerUp: canvas pixels are an array parameter. Drawing, `getImageData`, resizing and the ResizeObserver are not modelled.
- Browser side effects are outside the model: DOM focus, timers and intervals, confetti, iframes, and mouse and touch geometry.
  - `localStorage` is a map parameter.
  - Focus moves are the `Option<nat>` results of `Passcode.NextFocus` and `Passcode.BackspaceFocus`.
  - A timer tick is a method call.
- Invitation.InvitationCard.HandleYes: the 4-second timer that calls `onComplete` is not modelled. `Home.HomePage.OnComplete` is that callback.
- `moveNoButton` is left out: it uses random floating-point geometry. Only its reset is kept.
- Lightbox rendering, the layout and static pages, CookieBanner, Ambiance, HeartCursor and the Electron shell are rendering-only.
- The server routes are foreign-service wrappers: Stripe checkout, webhooks, verify-session, verify-premium, upload, upload/challenge and delete-blobs.
  - The dashboard's `/api/verify-premium` check is not modelled.
  - The revoke page's delete call is a `ServerReply` parameter.
- DOMPurify sanitising of note HTML is not part of this model. The note view carries the content unchanged.
- The legacy LZString codec of `src/utils/config.ts` and `encodeConfig` are not part of this model. Wizard.WizardPage.Generate takes the encoded text as a parameter.
- The wizard's `maxLength={4}` input limit and the date `<input>`'s ISO conversion are browser behaviour. The converted text is a parameter of `UpdateConfig`.
- Wizard.WizardPage.UpdateConfig: values are modelled, not references. The shallow copy `{ ...config }` shares nested objects, and the walk mutates them in place. That aliasing is invisible here, because the page keeps only the new state.
- Wizard.SetPath: property reads on primitives, array indexing by a path segment, and prototype properties are not modelled. A walk step that does not find an object holding the next key counts as the `TypeError` it would eventually raise.
- Transient states are not represented: the revoke page's `verifying` and `deleting`, the lock screen's `isVerifying`, and React's batching of state updates. Each handler is modelled from its entry state to its settled state.
- The user-typed revoke URL goes through `new URL` parsing, which is not part of this model. The parsed `d`, `iv` and fragment are an `Option<ParsedLink>` parameter; `None` is a URL that does not parse.
- The `typeof window` guard of `isTrackUnlocked` is not modelled. The debug flag is a boolean parameter.
- Gallery.HandleImageClick: the lightbox index is a value returned by pure updater functions rather than a mutable field, as the source's `setLightboxIndex` updaters are.
