# Check tracker core, modelled in Dafny

This project models the core of a browser-based check tracker. The tracker registers bank checks, tracks each check's status and audit history, shows aggregates, and keeps its data in `localStorage` behind a reversible obfuscation. It covers:

- **`Types`** (`types.dfy`): the records of `types.ts`, plus the registry invariant. A check always has at least one history entry, and its status is the target of the newest entry.
- **`App`** (`app.dfy`): the check list held by the root component of `App.tsx`.
  - the status change (`handleUpdateStatus`);
  - registration (`handleAddCheck`);
  - the Telegram dispatch guard;
  - the unread-notification badge;
  - a `Registry` class whose methods assign the `checks` field and the outbox of sent messages.
- **`Dashboard`** (`dashboard.dfy`):
  - the total amount;
  - the per-status tally, built by a loop that rebuilds its accumulator at each step;
  - the chart data and the stat-card texts;
  - the five most recent checks;
  - the status badge styles.
- **`CheckList`** (`check_list.dfy`): the search filter, the status selector, the history timeline and the bank badge.
- **`RegisterCheck`** (`register_check.dfy`):
  - the initial form and the required-field gate;
  - submit-then-reset, as a class whose methods assign the form;
  - the merge of fields read from a photo of a check.
- **`GeminiService`** (`gemini_service.dfy`):
  - `decodeBase64`, which fills a byte array in a loop;
  - `createWavBlob`, which writes a 44-byte RIFF WAVE header into an array through `DataView`-style writes and then copies the PCM bytes after it.
  - The header follows the Microsoft/IBM Multimedia Programming Interface and Data Specifications 1.0: a `fmt ` chunk for WAVE_FORMAT_PCM, 16-bit mono, then the `data` chunk. An independent reader parses the header back.
- **`StorageService`** (`storage_service.dfy`):
  - `encrypt`/`decrypt`: URI-component encoding, XOR with a cyclic 19-character salt, then Base64;
  - `SecureDB.save`/`load`/`clear` over a `map<string, string>` that stands for `localStorage`.
- **`WebCodec`** (`web_codec.dfy`): the browser primitives the store and the WAV code rely on, written out concretely so that their round trips are proved rather than assumed.
  - `btoa`/`atob`: RFC 4648 section 4 Base64, with the WHATWG forgiving-base64 decoding that `atob` performs;
  - `encodeURIComponent`/`decodeURIComponent`: the functions of those names in ECMA-262, with their Encode and Decode operations, over UTF-8 as in RFC 3629.

Some inputs are parameters of the model:

- clocks (`Date.now`, `new Date().toLocaleString`, `toISOString`) and random ids (`Math.random`): a `Stamp` or `Creation` value;
- `formatNewCheckMessage` and `Number`: function parameters;
- JSON: a `Json` record of `stringify`/`parse`. The store's lemmas require that `parse` inverts `stringify`.

Amounts are integers.

## Model

| member | source | states |
|---|---|---|
| `Types.ParseStatus` | types.ts:2-8 | Reading a string back as a status succeeds exactly for the five enum strings, and yields the status whose string it is |
| `Types.StatusEnumClosed` | types.ts:2-8 | The status enum has exactly five members. Each is listed once in `Object.values` order, and no two share a string |
| `Types.FromLabel` | types.ts:10-16 | A history entry's `fromStatus` text is the initial-registration marker exactly for the `Initial` case |
| `Types.NumberToString` | pages/Dashboard.tsx:27-29 | `toString` of an integer starts with '-' exactly for a negative one; the digits after the sign read back, by an independent decimal reader, as the magnitude, and have no leading zero; 0 is shown as "0" |
| `App.ActorName` | App.tsx:71 | The recorded actor is the username when it is non-empty; otherwise it is the fallback |
| `App.ApplyStatusChange` | App.tsx:63-78 | The list keeps its length and order, and checks with another id are untouched. Every check with the id gets the new status and one new newest history entry, from its old status to the new one, by the actor. Its other fields are unchanged |
| `App.StatusChangeKeepsWellFormed` | App.tsx:64-76 | A status change keeps every check well-formed, makes each target well-formed, and lengthens each target's history by exactly one |
| `App.UnknownIdChangesNothing` | App.tsx:64-76 | Changing the status of an id no check has returns the same list |
| `App.NewCheck` | App.tsx:81-92 | A new check carries the draft's fields, the generated id and time, and exactly one history entry: from the initial marker to the draft's status, by the actor. It is well-formed |
| `App.Register` | App.tsx:93 | Registration appends the new check last and leaves the existing checks as they were; well-formedness of the list is kept |
| `App.TelegramDispatch` | App.tsx:57-60 | A message is sent exactly when the user has a Telegram configuration with a non-empty token and a non-empty chat id. It goes to that token and chat, unchanged |
| `App.Unread` | App.tsx:161 | The unread list holds only unread notifications, each unread notification exactly as often as in the input |
| `App.UnreadBadge` | App.tsx:161-163 | The badge shows the number of unread notifications and is shown only when that number is positive |
| `App.UnreadBadgeShown` | App.tsx:161-163 | The badge is shown if and only if some notification is unread |
| `App.UpdatesKeepWellFormed` | App.tsx:63-95 | Any sequence of status changes and registrations keeps every check well-formed |
| `App.RegisterThenChange` | App.tsx:63-95 | Registering a check under a fresh id and then changing its status gives that check two entries, newest first: the change by its actor on top of the initial registration by the registrar. The earlier checks are unchanged |
| `App.Registry.UpdateStatus` | App.tsx:63-78 | The checks become the status-changed list, with the actor's name or the fallback "کاربر". Nothing else changes, and no message is sent |
| `App.Registry.AddCheck` | App.tsx:80-95 | The new check is appended with actor name or fallback "مدیر". The outbox grows by the formatted new-check message, with fallback "مدیر سیستم", exactly when the Telegram guard lets it through |
| `Dashboard.TotalAmount` | pages/Dashboard.tsx:12 | The total is 0 for no checks, the amount itself for one check, and non-negative when every amount is |
| `Dashboard.TotalAmountIsSum` | pages/Dashboard.tsx:12 | The total equals the sum of all amounts, as an independent sum taken from the front computes it |
| `Dashboard.TotalAmountAppend` | pages/Dashboard.tsx:12 | The total of two lists joined is the sum of their totals |
| `Dashboard.Tallied` | pages/Dashboard.tsx:13-16 | The tally has at most one entry per check, and is empty exactly when there are no checks |
| `Dashboard.StatusCounts` | pages/Dashboard.tsx:13-16 | The in-place reduce computes the same tally as the fold of its update step over the checks |
| `Dashboard.BumpLookup` | pages/Dashboard.tsx:14 | One update step increments the count of its status, or adds it with count 1, and leaves every other status's entry as it was |
| `Dashboard.BumpDistinct` | pages/Dashboard.tsx:14 | One update step keeps each status at most once, and adds the counted status to the statuses present |
| `Dashboard.TalliedCounts` | pages/Dashboard.tsx:13-16 | The tally has each status at most once. A status is present exactly when some check has it, with the number of such checks as its value. The values add up to the number of checks |
| `Dashboard.ChartData` | pages/Dashboard.tsx:18 | The chart has one entry per tally entry, in order, named by the status string with the count as value |
| `Dashboard.ChartDataBars` | pages/Dashboard.tsx:18 | The chart has one bar per status that some check has, with that status's count as its value; no status appears twice |
| `Dashboard.StatCardValue` | pages/Dashboard.tsx:27-29 | A stat card's text is never empty. It is the Persian zero exactly when the tally has no entry for the status; otherwise it is the entry's count as decimal text |
| `Dashboard.StatCardShowsCount` | pages/Dashboard.tsx:27-29 | A stat card shows the Persian zero exactly when no check has its status; otherwise it shows the decimal count |
| `Dashboard.RecentChecks` | pages/Dashboard.tsx:20 | The recent view has min(5, n) entries, and entry i is check n-1-i |
| `Dashboard.RecentShowsNewest` | pages/Dashboard.tsx:20 | A check appended last is shown first, followed by the previous recent view cut to four |
| `Dashboard.BadgeStyle` | pages/Dashboard.tsx:146-152 | Every status has a non-empty badge style |
| `Dashboard.BadgeStylesDistinct` | pages/Dashboard.tsx:146-152 | No two statuses share a badge style |
| `CheckList.Includes` | pages/CheckList.tsx:15 | `includes` holds whenever the search text is a prefix of the field, and never when it is longer than the field |
| `CheckList.Matches` | pages/CheckList.tsx:15 | A check matches exactly when the search text occurs at some position in its check number, its issuer's name or its bank's name |
| `CheckList.IncludesAt` | pages/CheckList.tsx:15 | `includes` holds exactly when the search text occurs in the field at some position |
| `CheckList.Filtered` | pages/CheckList.tsx:15 | The filtered list is an order-preserving subsequence of the checks. Every kept check matches the search in its number, issuer or bank. Every matching check is kept as often as it occurs |
| `CheckList.EmptyFilterKeepsAll` | pages/CheckList.tsx:15 | An empty search keeps every check |
| `CheckList.SelectorOptions` | pages/CheckList.tsx:80 | The selector lists the five status strings in enum order |
| `CheckList.OnSelect` | pages/CheckList.tsx:78 | Choosing an option forwards the row's own check id with the status whose string the option carries |
| `CheckList.SelectorOffersEveryStatus` | pages/CheckList.tsx:75-81 | There are five distinct options, and every status can be chosen and is forwarded with the row's id |
| `CheckList.HistoryRows` | pages/CheckList.tsx:106-108 | The timeline lists the history in stored, newest-first order, and only row 0 is highlighted |
| `CheckList.HighlightedIsCurrent` | pages/CheckList.tsx:106-108 | On a well-formed check, a row is highlighted, and the highlighted row leads to the current status |
| `CheckList.Substring` | pages/CheckList.tsx:45 | `substring` clamps both ends to the string and swaps them when they are out of order |
| `CheckList.SubstringSymmetric` | pages/CheckList.tsx:45 | The order of the two ends of `substring` does not matter |
| `CheckList.BankBadge` | pages/CheckList.tsx:45 | The bank badge is characters 5 and 6 of the bank name: empty for names of up to five characters, one character for six, two from seven on |
| `RegisterCheck.InitialForm` | pages/RegisterCheck.tsx:14-23 | The initial form has every text empty, the first bank and status pending, and it does not pass the required-field gate |
| `RegisterCheck.ToDraft` | pages/RegisterCheck.tsx:59-62 | An accepted form is passed on with every field unchanged except the amount, which is the number read from the amount text |
| `RegisterCheck.RequiredFilled` | pages/RegisterCheck.tsx:54 | The gate passes exactly when each of the three required fields (check number, amount, due date) is non-empty |
| `RegisterCheck.MergeExtraction` | pages/RegisterCheck.tsx:35-41 | Check number, issuer and due date are replaced only by a truthy extracted value. A present amount (zero included) replaces the amount text. Bank, receiver, issue date and status are never changed |
| `RegisterCheck.MergeIdempotent` | pages/RegisterCheck.tsx:35-41 | Applying the same extraction twice changes nothing the second time |
| `RegisterCheck.MergeKeepsRequired` | pages/RegisterCheck.tsx:35-41 | A merge never empties a required field |
| `RegisterCheck.RegisterCheckPage.Submit` | pages/RegisterCheck.tsx:52-74 | Submit is accepted exactly when check number, amount and due date are non-empty. If accepted, the draft is handed on and the form is reset to the initial form. Otherwise nothing changes |
| `RegisterCheck.RegisterCheckPage.ApplyExtraction` | pages/RegisterCheck.tsx:35-41 | The form becomes the merge of the extraction into it; nothing is submitted |
| `GeminiService.DecodeBase64` | services/geminiService.ts:145-152 | Fails exactly when `atob` throws. Otherwise the array has one byte per decoded character, and byte i is character code i |
| `GeminiService.SetUint32` | services/geminiService.ts:198-214 | A 32-bit write overwrites the four bytes at the offset with the value's bytes in the chosen order, and nothing else |
| `GeminiService.SetUint16` | services/geminiService.ts:205-210 | A 16-bit little-endian write overwrites the two bytes at the offset, and nothing else |
| `GeminiService.WriteRiffHeader` | services/geminiService.ts:198-200 | Bytes 0-11 become "RIFF", 36 + data length (little-endian), "WAVE" |
| `GeminiService.WriteFmtChunk` | services/geminiService.ts:203-210 | Bytes 12-35 become the `fmt ` chunk: size 16, PCM format 1, one channel, the sample rate, twice the rate as byte rate, block align 2, 16 bits per sample |
| `GeminiService.WriteDataHeader` | services/geminiService.ts:213-214 | Bytes 36-43 become "data" and the data length |
| `GeminiService.WriteWavHeader` | services/geminiService.ts:197-214 | The header writes together lay down the 44-byte header and leave the rest of the buffer alone |
| `GeminiService.CopyInto` | services/geminiService.ts:217-218 | Copying the PCM bytes overwrites exactly the bytes from the offset on with them |
| `GeminiService.CreateWavBlob` | services/geminiService.ts:192-221 | Fails exactly when the Base64 text is malformed. Otherwise the buffer is the 44-byte header for the decoded length and the rate (24000 Hz when none is passed), followed by the decoded bytes in order, so it has 44 + n bytes |
| `GeminiService.ParseWavHeaderRoundTrip` | services/geminiService.ts:197-214 | Parsing the header back finds the four tags in place and recovers every field written |
| `GeminiService.WavHeaderConsistent` | services/geminiService.ts:206-210 | The header describes itself consistently: byte rate = sample rate × block align, block align = channels × bits / 8, RIFF size = 36 + data size |
| `WebCodec.Latin1RoundTrip` | services/geminiService.ts:146-150 | Turning a one-byte string into bytes by character code and back gives the string again |
| `WebCodec.SextetsRoundTrip` | services/storageService.ts:11 | Regrouping bytes into 6-bit digits and back returns the bytes |
| `WebCodec.Btoa` | services/storageService.ts:11 | `btoa` succeeds exactly on strings whose characters all fit in one byte |
| `WebCodec.BtoaAscii` | services/storageService.ts:11 | `btoa` of an ASCII string succeeds and yields ASCII text |
| `WebCodec.Atob` | services/storageService.ts:18 | What `atob` returns has one byte per character, so turning it into bytes never fails |
| `WebCodec.AtobBtoa` | services/storageService.ts:11-18 | `atob` undoes `btoa` on every string it accepts |
| `WebCodec.EncodeURIComponent` | services/storageService.ts:11 | The encoding is ASCII, and it is empty exactly for the empty string |
| `WebCodec.DecodeURIComponent` | services/storageService.ts:22 | A successful decode is never longer than its input, and text without '%' decodes to itself |
| `WebCodec.DecodeEncodeURIComponent` | services/storageService.ts:11-22 | `decodeURIComponent` undoes `encodeURIComponent` on every string |
| `StorageService.XorWithSalt` | services/storageService.ts:11-13 | The XOR step keeps the length and one-byte text, and character i is the character code XOR the salt character at position i mod 19 |
| `StorageService.XorWithSaltInvolution` | services/storageService.ts:11-21 | XOR with the salt character at position i mod 19 undoes itself |
| `StorageService.XorKeepsAscii` | services/storageService.ts:11-13 | XOR of ASCII text with the ASCII salt stays ASCII, so `btoa` never refuses it |
| `StorageService.Encrypt` | services/storageService.ts:10-14 | The encoding is ASCII, and empty exactly for the empty text |
| `StorageService.Decrypt` | services/storageService.ts:16-26 | Decoding never throws: it returns the empty string when `atob` or `decodeURIComponent` fails |
| `StorageService.DecryptEncrypt` | services/storageService.ts:10-26 | decrypt(encrypt(s)) == s for every string s |
| `StorageService.Saved` | services/storageService.ts:29-33 | Saving writes exactly the key "_tisa_" + key, with the encrypted JSON text, and leaves every other entry |
| `StorageService.Loaded` | services/storageService.ts:35-44 | Loading gives nothing when the key is absent; a value it does give is the parse of a non-empty decryption of the stored text |
| `StorageService.Cleared` | services/storageService.ts:46-50 | Clearing keeps exactly the entries whose key does not start with "_tisa_", unchanged |
| `StorageService.LoadAfterSave` | services/storageService.ts:29-44 | Given that JSON parse inverts stringify, loading a key right after saving it gives back the saved value |
| `StorageService.SaveKeepsOtherKeys` | services/storageService.ts:29-44 | Saving one key leaves what every other key loads unchanged |
| `StorageService.LoadAfterClear` | services/storageService.ts:35-50 | After clearing, no key loads anything |
| `StorageService.SecureDB.Save` | services/storageService.ts:29-33 | The store's entries become the saved map |
| `StorageService.SecureDB.Load` | services/storageService.ts:35-44 | The result is what the entries load for the key |
| `StorageService.SecureDB.Clear` | services/storageService.ts:46-50 | The loop over the keys removes exactly those with the prefix, leaving the cleared map |

## Left out

- Notification derivation is left out because the source has none: no near-due or bounced alerts, no de-duplication, no 30-entry cap and no notification on registration. App.tsx only loads the list and counts unread entries, and that count is modelled.
- A status change sends no Telegram message in App.tsx. The model follows the code: `App.Registry.UpdateStatus` leaves the outbox unchanged. Only registration dispatches.
- Check ids are not unique in the source: a status change updates every check with the id, and the model does the same. The random id (`Math.random().toString(36).substr(2, 9)`) and the clocks are parameters.
- React rendering, routing, sidebar and modal toggles, the `alert` pop-ups, and the `useEffect` persistence of checks, notifications and user to `localStorage` (App.tsx:43-55) are left out. They are side effects of the UI framework.
- The Telegram HTTP call, `formatNewCheckMessage` (a parameter) and the rest of services/telegramService.ts are left out, because they are network I/O and foreign formatting.
- `Types.Check` has an integer amount. JavaScript numbers are doubles, so fractional amounts, `NaN` from `Number(...)` and rounding in sums are not modelled; `Number` is a parameter of `RegisterCheck.ToDraft`.
- `toLocaleString('fa-IR')` of the total amount is not modelled. It is a foreign formatter.
- `BANK_LIST` lives in constants.ts, which is not part of this model, so the first bank is a constructor parameter of `RegisterCheck.RegisterCheckPage`.
- `RegisterCheck.MergeExtraction` takes the extracted amount as an integer. The AI reply is untyped JSON, so strings or fractions arriving there are not modelled. The photo reading (`FileReader`, `analyzeCheckImage`) and its error path are remote calls.
- JavaScript strings are UTF-16. Dafny `char`s are Unicode scalar values, so lone surrogates, on which `encodeURIComponent` throws, cannot occur in the model.
- `substring` on names beyond the Basic Multilingual Plane would count UTF-16 code units; the model counts characters.
- `Types.NumberToString` covers integers only; the exponent forms of very large or small doubles are not modelled.
- JSON is a parameter record. The JSON round-trip law is a `requires` of `StorageService.LoadAfterSave`, not an axiom.
- `setItem` quota exceptions are not modelled.
- `createWavBlob` returns a `Blob` wrapping the buffer. The model returns the buffer's bytes; the `Blob` and its MIME type are browser objects.
- `encodePCM` and `decodeAudioData` are left out: they do floating-point sample conversion and use `AudioContext`.
- The AI functions of services/geminiService.ts, the GeminiLab, Forecaster, Settings and Login pages, and services/telegramService.ts are left out: they are remote calls and UI.
- `GeminiService.SetUint32` writes into a byte array sized exactly for the header and data; the `DataView` range errors of out-of-bounds offsets cannot arise in `createWavBlob` and are not modelled.
