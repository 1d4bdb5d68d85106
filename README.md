# SkyCatalog catalog engine — a Dafny model

SkyCatalog reads a sky-object database from an SD card on an Arduino. The
database is a directory tree:

- one count file per category at its root (`star.cnt`, `messier.cnt`,
  `ngc.cnt`, `ic.cnt`);
- one text file per object, named `NNNNNN.txt` after its identifier, under
  a category directory (`star`, `messier`, `ngc`, `ic`), either at the root
  or under `const/ABRV/` for one constellation;
- one translation file per language in each constellation directory
  (`const/ABRV/eng.tsl`, `lat.tsl`, `fra.tsl`).

A record file holds one field per line. The documented layout puts the
designation first, then the name, the constellation, right ascension,
declination and magnitude. `readObject` stores the first line into `name` and
the second into `designation`; the model follows the code. A star's file has
three more lines: the yearly drift in RA, the yearly drift in Dec and the
parallax.

This project models the engine in `SkyCatalog.cpp` / `SkyCatalog.hpp`. The
medium is a value `FileSystem`, a map from path to file bytes or to a
directory's entry names. An open file is the sequence of bytes not read yet.

| module (file) | what it models |
|---|---|
| `Text` (text.dfy) | `readLine`: the method `ReadLine` is proved against `LineText`/`Consumed`. Also `atoi`, `sprintf("%06d")` and `strlwr`, as functions. |
| `SkyTypes` (types.dfy) | The enums, the three structs and the buffer sizes. The category directory names and the translation file names. |
| `Storage` (storage.dfy) | The SD card's `open`: a file, a directory, or an invalid handle. |
| `Paths` (paths.dfy) | `newPathByAppendingPaths` as a method over a `calloc`ed `array<char>`, proved against `Joined`. Splitting the result back gives its segments. Also the fixed path recipes the engine uses. |
| `Records` (records.dfy) | `readObject`, proved against `ParseRecord`, with a round trip over well-formed record text. `countFile`. The record file name test of `currentObjectInList`. What `object` and `constellation` return. |
| `Cursor` (cursor.dfy) | The directory/file/index triple behind both lists, as a class `DirCursor`. Each method is proved against a function of the state: `OpenState`, `NextState`, `PreviousState` (a closed form of the rewind-and-replay loop) and `CloseState`. |
| `Catalog` (catalog.dfy) | The class `SkyCatalog`: its private state, `initDatabase`, `databaseDescription`, `object`, `constellation`, both lists and `setLanguage`. |

Behaviour the model follows, as the code is written:

- **Field order.** `readObject` reads the name before the designation (`SkyCatalog.cpp:339-343`).
- **Overlong lines.**
  - A line longer than the buffer keeps its first `size - 1` characters.
  - Two more characters are consumed and lost.
  - The rest of the line becomes the start of the next field (`Text.OverlongLine`).
  - A line of exactly `size` characters loses its last character (`Text.LineFillingBuffer`).
- **`gotoNext…InList` takes every raw entry.** It does no name filtering.
- **`currentObjectInList` cuts the entry's name.** `name()` hands out the file's own name buffer. The extension is lower-cased in it, and on success cut off at the `'.'`. A second call on the same entry then tests `"000042"`, finds no `txt` among its last four characters and returns false (`Records.CutNameRejected`).
- **The record file name test.** It only asks that "txt" appears among the last four characters, once they are lower-cased. So `TXT1` passes, and is read as identifier 0 (`Records.NonRecordNameAccepted`).
- **`currentConstellationInList` always returns false,** even when it filled the record (`SkyCatalog.cpp:644`, `697`).
- **`gotoPrevious…InList` at position 0** (a freshly opened list) with an open directory:
  - the unsigned `index - 1` wraps round to the largest `unsigned int`;
  - the directory is rewound and read through to the end;
  - the cursor ends at position 0 with no current file (`Cursor.PreviousAtZero`).
- **`open…List` with no root.** It returns false before it touches the list state.
- **`open…List` does not close the current file.** It resets the index and replaces the directory. The current file stays as it was.
- **A failed `gotoNext`** closes the current file and does not replace it.
- **A refused `initDatabase`** keeps any root stored earlier.
- **`SkyObjectNone`** has no category directory. Paths built with it leave that segment out, because `newPathByAppendingPaths` skips NULL segments.

## Model

| member | source | states |
|---|---|---|
| `Text.ReadLine` | SkyCatalog.cpp:77-98 | The read loop stores at most `size - 1` characters. These are the longest newline-free prefix, clipped. The stream left over starts after what was consumed: the line and its `'\n'`, or `size + 1` characters when the buffer filled. |
| `Text.LineText` | SkyCatalog.cpp:82-97 | The stored text is a newline-free prefix of the stream, shorter than the buffer. Its length is the line length, or `size - 1`. |
| `Text.Consumed` | SkyCatalog.cpp:81-88 | No more is consumed than the stream holds. A line that ends inside the buffer is consumed up to and including its `'\n'`. A last line without `'\n'` that fits is consumed whole, because `EOF` stops the loop. When the buffer fills, one more byte is consumed, unless the stream ends first. |
| `Text.LastLine` | SkyCatalog.cpp:82-97 | A last line without `'\n'` that fits the buffer is returned whole and consumes the rest of the stream. |
| `Text.CompleteLine` | SkyCatalog.cpp:82-97 | A line that fits is returned whole. Its newline is consumed, and the next read starts at the following line. |
| `Text.OverlongLine` | SkyCatalog.cpp:82-94 | For a line longer than the buffer: the first `size - 1` characters are kept and `size + 1` are consumed. The next read sees the rest of the same line. |
| `Text.LineFillingBuffer` | SkyCatalog.cpp:91-94 | A line of exactly `size` characters loses its last character. The next read starts at the following line. |
| `Text.Atoi` | SkyCatalog.cpp:124 | `atoi` is negative only after a leading `'-'`. Its magnitude has fewer digits than the text: below `10^n` for `n` characters. |
| `Text.AtoiOfDigits` | SkyCatalog.cpp:124 | `atoi` of a digit string gives its decimal value, whatever non-digit follows. |
| `Text.Pad` | SkyCatalog.cpp:192 | `%06d`-style padding gives exactly `width` characters, all decimal digits. |
| `Text.PadRoundTrip` | SkyCatalog.cpp:192 | Zero-padding a value of at most `width` digits keeps its value. |
| `Text.LowerAll` | SkyCatalog.cpp:401 | `strlwr` keeps the length and lower-cases each ASCII capital. |
| `Text.LowerAllConcat` | SkyCatalog.cpp:401 | `strlwr` of a joined string is the join of the lowered parts. |
| `SkyTypes.EmptyObject` | SkyCatalog.cpp:329 | The cleared record: index 0, empty strings, zero numbers. |
| `SkyTypes.EmptyConst` | SkyCatalog.cpp:694 | The cleared constellation record: empty abbreviation and empty name. |
| `SkyTypes.TypeDirectory` | SkyCatalog.cpp:195-221 | `SkyObjectNone` (and only it) selects no directory. Every other category has a slash-free directory name. |
| `SkyTypes.TypeDirectoriesDistinct` | SkyCatalog.cpp:196-221 | Distinct categories use distinct directories. |
| `SkyTypes.TranslationFile` | SkyCatalog.cpp:607-620 | Latin selects `lat.tsl` and French selects `fra.tsl`, each if and only if. Every other language, English included, selects `eng.tsl`. |
| `Paths.Joined` | SkyCatalog.cpp:22-75 | The joined path is one byte shorter than the computed buffer size, so it fits with its NUL. |
| `Paths.CopyAt` | SkyCatalog.cpp:45-54 | Copying a string at a position leaves the bytes before it in place, followed by the string. The bytes after it are untouched. Zero bytes after C-string text stay zero after the copy. |
| `Paths.AppendSegment` | SkyCatalog.cpp:47-54 | A non-NULL segment appends `"/"` and the segment. A NULL one appends nothing. The bytes after them are untouched, and a buffer holding C-string text followed by zeros still does. |
| `Paths.StrlenOfWritten` | SkyCatalog.cpp:50 | In a buffer holding `n` NUL-free bytes followed by zeros, `strlen` is `n`. This is why appending at `strlen(fullPath)` appends after what was written. |
| `Paths.FillPath` | SkyCatalog.cpp:44-72 | The copies fill the zeroed buffer with the root, then `"/"` and each non-NULL segment, leaving exactly the final NUL. For C-string arguments, `strlen` of the filled buffer is the text's length, so each append at `strlen(fullPath)` lands right after what was written. |
| `Paths.NewPathByAppendingPaths` | SkyCatalog.cpp:22-75 | The buffer is allocated at the computed size and filled without overflow. The result is the root followed by `"/"` and each non-NULL segment, and its length is the computed size minus one. |
| `Paths.SplitJoined` | SkyCatalog.cpp:22-75 | The path can be split back: for slash-free segments, splitting the joined path at `'/'` gives the components of the root followed by the non-NULL segments, in order. |
| `Paths.RecordFileName` | SkyCatalog.cpp:191-192 | A record file name has 10 characters: six digits, then `.txt`. |
| `Paths.RecordPathLayout` | SkyCatalog.cpp:223-241 | The file `object` opens is `root/const/ABRV/type/NNNNNN.txt` with a filter, and `root/type/NNNNNN.txt` without one. |
| `Paths.ObjectDirPath` | SkyCatalog.cpp:295-306 | The directory an object list opens has components root, `const`, ABRV, type with a filter, and root, type without one. `SkyObjectNone` contributes no component. |
| `Paths.RecordPath` | SkyCatalog.cpp:223-241 | The file `object` opens is an entry of the directory `openObjectList` opens, for the same filter and category: that directory, `"/"`, the record file name. |
| `Paths.ConstDirPath` | SkyCatalog.cpp:513 | The directory the constellation list opens has components root, then `const`. |
| `Paths.TranslationPath` | SkyCatalog.cpp:607-620 | A translation file has components root, `const`, ABRV, then the language's file name. |
| `Paths.CountPath` | SkyCatalog.cpp:109 | A count file has components root, then its slash-free name. |
| `Paths.TranslationPathLayout` | SkyCatalog.cpp:605-620 | The translation file lies in the constellation's directory, inside the directory the constellation list opens. |
| `Records.Line` | SkyCatalog.cpp:77-98 | One call stores fewer characters than the buffer holds and never lengthens the stream. |
| `Records.ParseCommon` | SkyCatalog.cpp:336-358 | The common part of `readObject`: the record carries the given index. Each string fits its buffer, the three coordinates hold text, and the star-only fields are not set. |
| `Records.ParseStarFields` | SkyCatalog.cpp:360-373 | The star branch sets the three star-only fields from text and changes nothing else. |
| `Records.ParseRecord` | SkyCatalog.cpp:324-383 | The record carries the given index and every string fits its buffer. The drift and parallax fields are read if and only if the category is `Star`. Otherwise they are not-a-number. |
| `Records.ReadObject` | SkyCatalog.cpp:324-383 | An invalid file gives the cleared record. Otherwise the result and the stream left over are those of `ParseRecord`, through 6 `readLine` calls, or 9 for a star. |
| `Records.ParseWellFormed` | SkyCatalog.cpp:339-379 | For a record file whose fields fit their buffers, parsing gives each line back in its field, name first. It consumes exactly the record. |
| `Records.CountFile` | SkyCatalog.cpp:101-131 | `countFile` is -1 when the count file cannot be opened. Otherwise it is `atoi` of the first line, read into a 6-byte buffer. |
| `Records.CountValue` | SkyCatalog.cpp:101-131 | `countFile` gives -1 when the count file cannot be opened. Otherwise its value has at most five digits, because the buffer holds 5 characters. |
| `Records.CountOfDecimalFile` | SkyCatalog.cpp:118-128 | A count file holding a number of at most 5 digits yields that number. A longer one is cut to its first 5 digits. It is never negative. |
| `Records.RecordFileNameRoundTrip` | SkyCatalog.cpp:399-407 | The name `object` builds for an identifier passes the list's name test, in lower or upper case, and reads back as the same identifier. |
| `Records.AnySpellingRoundTrip` | SkyCatalog.cpp:396-407 | Any spelling of a record file name that lower-cases to it (the upper-case 8.3 name a FAT listing reports) passes the list's name test and reads back as the same identifier. |
| `Records.RecordFileNameLower` | SkyCatalog.cpp:191-192 | The `%06d.txt` name `object` builds has no capitals, so `strlwr` leaves it unchanged. |
| `Records.IsRecordEntry` | SkyCatalog.cpp:400-401 | A name ending in `.txt`, in any case, passes the test. A name whose last four characters are digits fails it. |
| `Records.EntryId` | SkyCatalog.cpp:404-407 | The identifier of an entry is `atoi` of the name without its last four characters: the decimal value of a digit stem, and below `10^n` in magnitude for an `n`-character stem. |
| `Records.NonRecordNameAccepted` | SkyCatalog.cpp:400-401 | The test accepts names that do not end in `.txt`: `TXT1` passes, as identifier 0. |
| `Records.CutNameRejected` | SkyCatalog.cpp:399-404 | Once `.txt` is cut off a record file's name, the six digits left fail the test. |
| `Records.LookupObject` | SkyCatalog.cpp:188-255 | `object` gives the cleared record when the file cannot be opened. Otherwise the record carries the requested identifier, its coordinates hold text, and it has star-only fields exactly for `Star`. |
| `Records.LookupWellFormed` | SkyCatalog.cpp:188-255 | Looking up a well-formed record file gives its lines back, under the identifier it was looked up by. |
| `Records.ConstRecord` | SkyCatalog.cpp:601-640 | The record keeps the abbreviation. Without a translation file the name is the abbreviation. Otherwise it is a newline-free prefix of the file that fits the 32-byte buffer. |
| `Records.ConstellationName` | SkyCatalog.cpp:601-640 | The translation is returned whole when it fits and cut to 31 characters otherwise. Without a translation file, the name is the abbreviation. |
| `Cursor.Target` | SkyCatalog.cpp:452-466 | The replay target is one less than the position. It is non-zero exactly when the position is not 1. At position 0 it wraps to the largest `unsigned int`. |
| `Cursor.CloseState` | SkyCatalog.cpp:492-501 | Closing leaves no directory, no file and position 0. |
| `Cursor.CloseIdempotent` | SkyCatalog.cpp:700-707 | Closing twice is closing once. |
| `Cursor.OpenState` | SkyCatalog.cpp:309-321 | Opening keeps the cursor consistent at position 0 with a fresh listing when the directory opened, and no directory otherwise. The current file is not closed. |
| `Cursor.NextState` | SkyCatalog.cpp:421-446 | `next` keeps the cursor consistent. It succeeds exactly when an entry is left, and then advances the position and the listing by one and makes a file current. On failure the position and directory stay, and with a directory there is no current file. |
| `Cursor.PreviousState` | SkyCatalog.cpp:448-490 | `previous` keeps the cursor consistent and the same listing. On success the position is the wrapped `index - 1` and a file is current. At position 1 or with no directory nothing changes. Otherwise a failure ends at 0 with no file. |
| `Cursor.NextSpec` | SkyCatalog.cpp:421-446 | `next` succeeds exactly when an entry is left. On success the position goes up by one and the current file is the entry at the new position. At the end the position stays and there is no current file. |
| `Cursor.StepsFromOpen` | SkyCatalog.cpp:421-446 | From a freshly opened list, `n` nexts (`n` at most the number of entries) succeed and stand on the `n`-th entry. |
| `Cursor.WalkWholeListing` | SkyCatalog.cpp:421-446 | Walking a listing of N entries, none included, reaches position N, and one more `next` fails and leaves it there. |
| `Cursor.PreviousIsReplay` | SkyCatalog.cpp:448-490 | From position `k >= 2`, `previous` equals reopening the list and calling `next` `k - 1` times. It succeeds. |
| `Cursor.PreviousAtFirst` | SkyCatalog.cpp:452 | At position 1, `previous` fails and changes nothing. |
| `Cursor.PreviousAtZero` | SkyCatalog.cpp:452-486 | At position 0 with an open directory, `previous` reads the whole directory and ends at 0 with no file. |
| `Cursor.NextThenPrevious` | SkyCatalog.cpp:421-490 | From position 1 or later, `next` then `previous` returns to the position and entry it started from. |
| `Cursor.DirCursor.constructor` | SkyCatalog.hpp:183-189 | A new cursor has no directory, no file and index 0. |
| `Cursor.DirCursor.Open` | SkyCatalog.cpp:309-321 | The index is reset and the directory replaced. The result says whether the directory opened. |
| `Cursor.DirCursor.Next` | SkyCatalog.cpp:421-446 | The new state and the result are `NextState` of the old state. Consistency is kept. |
| `Cursor.DirCursor.Previous` | SkyCatalog.cpp:448-490 | The rewind-and-replay loop ends in `PreviousState` of the old state. Consistency is kept. |
| `Cursor.DirCursor.Close` | SkyCatalog.cpp:492-501 | The cursor ends closed at position 0. |
| `Catalog.SkyCatalog.constructor` | SkyCatalog.hpp:181-200 | The initial state: no root, English, list type `SkyObjectNone`, and both lists closed at index 0. |
| `Catalog.SkyCatalog.SetLanguage` | SkyCatalog.hpp:129 | The language is set, and nothing else changes. |
| `Catalog.SkyCatalog.InitDatabase` | SkyCatalog.cpp:153-176 | Success exactly when the card mounts and the star count is not -1. Only a successful call stores the root. |
| `Catalog.SkyCatalog.DatabaseDescription` | SkyCatalog.cpp:178-186 | Each of the four counts is `countFile` of its own count file under the root. |
| `Catalog.SkyCatalog.Object` | SkyCatalog.cpp:188-255 | The result is the parsed record file at `RecordPath`, carrying the requested identifier. It is the cleared record when that file cannot be opened. |
| `Catalog.SkyCatalog.OpenObjectList` | SkyCatalog.cpp:257-322 | With no root, the call fails and changes nothing. Otherwise it records the category and opens `ObjectDirPath`, and succeeds exactly when that opens. |
| `Catalog.SkyCatalog.GotoNextObjectInList` | SkyCatalog.cpp:421-446 | The object cursor moves by `NextState`. |
| `Catalog.SkyCatalog.GotoPreviousObjectInList` | SkyCatalog.cpp:448-490 | The object cursor moves by `PreviousState`. |
| `Catalog.SkyCatalog.CurrentObjectInList` | SkyCatalog.cpp:385-419 | With no current file, the result is false and the record is cleared. Otherwise the result is whether the name passes the test. If it passes, the current file is parsed under the identifier its name gives, its read position advances, and its name loses the extension. If not, the caller's record is untouched and the name's extension is lower-cased. |
| `Catalog.SkyCatalog.CloseObjectList` | SkyCatalog.cpp:492-501 | The object cursor is closed and the list type reset to `SkyObjectNone`. |
| `Catalog.SkyCatalog.TranslatedName` | SkyCatalog.cpp:605-633 | The name is the first line of the language's translation file, or the abbreviation if there is none. |
| `Catalog.SkyCatalog.Constellation` | SkyCatalog.cpp:601-640 | The record holds the abbreviation and its translated name, and the name fits its 32-byte buffer. |
| `Catalog.SkyCatalog.OpenConstellationList` | SkyCatalog.cpp:506-528 | With no root, the call fails and changes nothing. Otherwise it opens `root/const`, and succeeds exactly when that opens. |
| `Catalog.SkyCatalog.GotoNextConstellationInList` | SkyCatalog.cpp:530-555 | The constellation cursor moves by `NextState`. |
| `Catalog.SkyCatalog.GotoPreviousConstellationInList` | SkyCatalog.cpp:557-599 | The constellation cursor moves by `PreviousState`. |
| `Catalog.SkyCatalog.CurrentConstellationInList` | SkyCatalog.cpp:642-698 | The result is always false. The record is cleared without a current entry. Otherwise it is what `constellation` returns for the current directory's name. |
| `Catalog.SkyCatalog.CloseConstellationList` | SkyCatalog.cpp:700-707 | The constellation cursor is closed at position 0. |
| `Catalog.ListedEntryBytes` | SkyCatalog.cpp:223-241 | The bytes a listed record entry hands out are those of the file `object` opens for its identifier: exactly when the listing spells the name as `object` does, and in any case of its letters on a case-insensitive volume. |
| `Catalog.ListedEntryMatchesLookup` | SkyCatalog.cpp:385-407 | When the object list lists the record file of an identifier, in lower or upper case, reading that entry gives the same record `object` returns for that identifier. A listing in another case than `object`'s lower-case name is covered on a volume that resolves paths case-insensitively, as FAT does. |

## Left out

- The SD driver (`begin`, SPI and the chip-select pin) is not modelled. Whether the card mounted is an input of `InitDatabase`.
- The `SdFat` variant (`USE_SD_FAT`, `getName` into a 14-byte buffer) is not modelled. The model follows the `SD.h` branch the header selects.
- Memory management is not modelled: `malloc`/`calloc`/`free`, the leaked earlier root in `initDatabase`, and the destructor.
- Path lookup in the model is case-sensitive: `Storage.Open` finds only the exact spelling, while FAT resolves any case. `Storage.CaseInsensitive` states the FAT behaviour as a property of the map, and only `Catalog.ListedEntryMatchesLookup` relies on it.
- Reading an opened directory as bytes gives an empty stream in the model. On the card, `read` on a directory returns its raw 32-byte entries. The engine never reads a directory as text, so no modelled operation sees the difference.
- Closing file handles has no effect in the model. The directory listing is a fixed sequence, so concurrent changes to the card are not modelled.
- Floating point is not modelled: `atof` is not evaluated. A numeric field holds its text; `NAN` is `NotApplicable` and memset's 0.0 is `Zero`.
- The C types are fixed as those of a target with a signed 8-bit `char` and a 32-bit `int` and `unsigned int`. Signed `char` is what lets `readLine` see `EOF`; the model stops a line at the end of the stream. With an unsigned `char` (ARM boards), `EOF` is never seen and a last line without `'\n'` fills the buffer with byte 0xFF instead; that behaviour is not modelled. With a 16-bit `int` (AVR boards), `IndexMax` would be 65535, `sprintf("%06d")` of the `long` identifier reads its low 16 bits (100000 gives `-31072.txt`), and `atoi` overflows above 32767; none of that is modelled.
- `Text.Atoi`: does not skip leading whitespace and does not model `int` overflow. With a 32-bit `int` no overflow can happen here: a count has at most 5 characters and an 8.3 entry name at most 8 before its extension.
- `Paths.FillPath`: `strcpy` and `strncpy` stop at a NUL, which the model's copies do not. The append position is proved equal to `strlen` only for C-string arguments, the only strings the source passes.
- Byte `0xFF` is not modelled as `EOF`: `readLine` stores `char`, so on a signed-`char` target that byte ends a line. NUL bytes inside a line, which end the C string early, are not modelled either.
- The position counters are unbounded. Their wrap-around after `UINT_MAX` successful `next` calls is not modelled; only the wrap of `index - 1` at 0 is.
- `Catalog.SkyCatalog.Object`: requires an identifier in `0..999999`. A larger one overflows the 11-byte `fileName` buffer. It also requires a stored root, because `newPathByAppendingPaths` calls `strlen` on the root.
- `Catalog.SkyCatalog.DatabaseDescription`: requires a stored root, for the same reason.
- `Catalog.SkyCatalog.Constellation`: requires an abbreviation of at most 4 characters, which `strcpy` into the 5-byte `abrv` needs. It also requires a stored root.
- `Catalog.SkyCatalog.CurrentConstellationInList`: requires the current entry's name to fit `abrv` (at most 4 characters).
- `Catalog.SkyCatalog.CurrentObjectInList`: requires a current entry name of at least 4 characters. The source computes `strlen(name) - 4` without a check.
