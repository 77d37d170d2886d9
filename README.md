# Find me if you can — the puzzle's logic, verified

A single-page puzzle component: it shows a 5×5 grid of decorative hex strings,
accepts exactly one guess at a pair of coordinates, and moves to a win screen
or to a "breached" screen. A wrong guess also makes the page fullscreen,
installs a leave-confirmation prompt for ten seconds, and a document `keydown`
listener blocks the view-source and developer-tools shortcuts.

This project models the logic under that user interface:

- `JsString` — ECMAScript `String.prototype.trim`. The whitespace set is the
  language's WhiteSpace and LineTerminator productions. `trim` is proved to
  remove exactly the whitespace border of the string.
- `Game` — the phases `Start`, `Win` and `Lose`, and the verdict on a guess:
  trim it, then compare it exactly with `"18.5204,73.8567"`. The class
  `PuzzleGame` holds the component's state: the field, the phase, the
  published grid, the fullscreen flag, `window.onbeforeunload` and the pending
  timer that clears it. Its methods are the events that change this state:
  typing, submitting, the timer expiring and the digests resolving.
- `Hex` — a byte's `toString(16).padStart(2, "0")`, and the buffer's hex text
  (the byte pairs joined in order). The encoder joins `HexPair(b)`, the
  byte's high and low digit; `ByteHex` proves that this pair is exactly what
  `toString(16).padStart(2, "0")` produces for every byte. A decoder is the
  partner for the round trip.
- `Chunking` — the loop `while (hexes.length) structured.push(hexes.splice(0, 5))`,
  as a method over a draining buffer, and the function that specifies it.
- `Grid` — the digests turned into rows of five hex texts, and each cell's
  text (a 16-character prefix and `...`), in the order the page lays the
  cells out.
- `Keys` — the `keydown` listener body.
- `Glitch` — the 20×80 overlay drawn from the twelve-character palette.

The submit form and the text field exist only while the phase is `Start`. So
`Submit` and `ChangeInput` are events that do nothing in any other phase; this
is how the model shows that `Win` and `Lose` are terminal. The field is
`required`, so the browser blocks an empty submission; `Submit` reports that
as `submitted == false` and changes nothing.

Two consequences of the code shape the model:

- The `keydown` listener reads the `status` it captured when it was
  registered. The effect at src/App.jsx:35-52 depends on `status`, so it runs
  again after a loss and registers a listener that captured `Lose`.
  `Keys.HandleKeydown` takes the captured phase as a parameter, and
  `Keys.LossBlocksEveryKey` describes that listener.
- `generateMatrix` runs from the same effect, so the digests resolve again
  after every phase change, and `PuzzleGame.ReceiveDigests` accepts them in
  any phase.

## Model

| member | source | states |
|---|---|---|
| `JsString.TrimStart` | src/App.jsx:56 | the result is a suffix of the input; everything dropped is whitespace; the result is empty or starts with a non-whitespace character |
| `JsString.TrimEnd` | src/App.jsx:56 | the result is a prefix of the input; everything dropped is whitespace; the result is empty or ends with a non-whitespace character |
| `JsString.Trim` | src/App.jsx:56 | `input.trim()` is the input with its whitespace border removed: whitespace, then the result, then whitespace, and the result has no whitespace at either end |
| `JsString.TrimmingIsUnique` | src/App.jsx:56 | a string has only one such whitespace border, so the trimmed text is determined |
| `JsString.TrimCharacterization` | src/App.jsx:56 | `r == s.trim()` if and only if `r` is `s` with its whitespace border removed (both directions) |
| `JsString.TrimPadded` | src/App.jsx:56 | trimming whitespace + core + whitespace gives back the core exactly, inner whitespace included, when the core has no whitespace at either end |
| `Game.Judge` | src/App.jsx:56-59 | a submitted guess leads to `Win` or `Lose`, never back to `Start` |
| `Game.WinIffPaddedAnswer` | src/App.jsx:56 | a guess wins if and only if it is `"18.5204,73.8567"` exactly with only whitespace before and after it |
| `Game.PaddedAnswerWins` | src/App.jsx:56 | `" 18.5204,73.8567 "` wins |
| `Game.TabAndNoBreakSpaceTrimmed` | src/App.jsx:56 | the answer between a tab and a no-break space (U+00A0) wins: `trim` strips every kind of whitespace a single-line field can hold, not only spaces |
| `Game.InnerSpaceLoses` | src/App.jsx:56 | `"18.5204, 73.8567"` (inner space) loses, and `"abc"` loses |
| `Game.PuzzleGame.constructor` | src/App.jsx:4-7 | the component starts with an empty field, in `Start`, with no grid and nothing locked |
| `Game.PuzzleGame.ChangeInput` | src/App.jsx:89-96 | typing sets the field only while the field is rendered (`Start`); nothing else changes |
| `Game.PuzzleGame.Submit` | src/App.jsx:54-67 | a submission happens only in `Start` with a non-empty field, otherwise nothing changes (so `Win` and `Lose` are terminal); it sets the phase to the verdict on the trimmed guess; a loss sets fullscreen, installs the leave prompt and schedules its 10000 ms clearing timer; a win does none of these; the invariant "prompt installed exactly while its timer is pending, only in `Lose`" is kept |
| `Game.PuzzleGame.GuardTimerFires` | src/App.jsx:63-65 | the timer's expiry sets `onbeforeunload` back to null and changes nothing else |
| `Game.PuzzleGame.ReceiveDigests` | src/App.jsx:23-31 | resolved digests are published as the grid of hex rows, in any phase, and nothing else changes |
| `Game.OneGuessOnly` | src/App.jsx:72-100 | after a non-empty first guess, a second edit and submission cannot change the verdict; an empty first attempt is blocked and the second one is judged |
| `Game.LeaveGuardWindow` | src/App.jsx:59-66 | a losing guess installs the leave prompt at once, a winning one never does, and the prompt is gone after the timer fires |
| `Hex.Digit` | src/App.jsx:26 | each base-16 digit is written as a character of `0-9a-f` |
| `Hex.ToRadix16` | src/App.jsx:26 | `n.toString(16)` is non-empty lowercase hex text that denotes `n`, with no leading zero unless `n` is 0 |
| `Hex.PadStart` | src/App.jsx:26 | `padStart(2, "0")` gives `max(len, 2)` characters: the original at the end, pad characters before it |
| `Hex.ByteHex` | src/App.jsx:26 | `b.toString(16).padStart(2, "0")` is exactly two zero-padded lowercase digits, the high nibble first and then the low nibble (`HexPair(b)`, the pair the encoder joins) |
| `Hex.Encode` | src/App.jsx:24-27 | an n-byte buffer gives a text of 2n characters |
| `Hex.EncodeIsHexText` | src/App.jsx:24-27 | the text uses only the characters `0-9a-f` |
| `Hex.DecodeEncode` | src/App.jsx:24-27 | decoding the hex text recovers the original bytes |
| `Hex.EncodeDecode` | src/App.jsx:24-27 | any text that decodes is exactly the encoding of what it decodes to |
| `Hex.EvenHexDecodes` | src/App.jsx:24-27 | every even-length text over `0-9a-f` decodes; with `EncodeDecode` and `DecodeEncode`, the encoding is a bijection onto even-length lowercase hex text |
| `Hex.EncodeAppend` | src/App.jsx:24-27 | joining is per byte: the text of a concatenation is the concatenation of the texts |
| `Hex.EncodePair` | src/App.jsx:24-27 | characters `2i` and `2i+1` of the text are the two digits of byte `i`, high nibble first |
| `Chunking.SpliceFront` | src/App.jsx:30 | `splice(0, 5)` returns the first `min(5, len)` entries, and those entries followed by the rest are the original buffer |
| `Chunking.ChunkRows` | src/App.jsx:29-30 | the loop drains the buffer and produces exactly the rows `Chunks` specifies; the flattened rows are the original list in order (loop invariant: rows so far + remaining buffer = original) |
| `Chunking.PushStep` | src/App.jsx:30 | one iteration keeps both loop invariants |
| `Chunking.ChunksFlatten` | src/App.jsx:29-30 | concatenating the rows gives back the original list |
| `Chunking.ChunksShape` | src/App.jsx:29-30 | every row has 5 entries except possibly a non-empty last one, and there are `ceil(n/5)` rows |
| `Chunking.ChunksOfFullRows` | src/App.jsx:29-30 | for `5n` entries there are `n` rows, and row `i` is entries `5i` to `5i+4` |
| `Chunking.TwentyFiveMakeFiveByFive` | src/App.jsx:15-30 | 25 entries give 5 rows of 5, and cell `(i, j)` is entry `5i + j` |
| `Grid.EncodeAll` | src/App.jsx:24-28 | one hex text per digest, in the same order |
| `Grid.BuildMatrix` | src/App.jsx:23-31 | the published matrix is the hex texts cut into rows, and flattening it gives the hex texts in generation order; 25 digests give a 5×5 matrix whose cell `(i, j)` is the text of digest `5i + j` |
| `Grid.CellText` | src/App.jsx:83 | a cell shows `min(len, 16)` leading characters of its text, then `...` |
| `Grid.DigestCellText` | src/App.jsx:83 | for a 32-byte digest the cell shows exactly 16 characters (the hex of its first 8 bytes) then `...`, 19 characters in all |
| `Grid.DisplayedCellsInOrder` | src/App.jsx:76-87 | laying out the rows one after another shows the cells of the flattened matrix, in order |
| `Grid.DisplayedGrid` | src/App.jsx:76-87 | once published, page cell `k` shows the first 8 bytes of digest `k` in hex followed by `...`: the grid keeps the generation order |
| `Keys.HandleKeydown` | src/App.jsx:41-46 | the listener prevents the default action if and only if Ctrl+`"u"` or `"F12"` was pressed, or the phase it captured is `Lose`; an already-prevented event stays prevented |
| `Keys.OnlyShortcutsOutsideLoss` | src/App.jsx:42 | outside a loss only the two shortcuts are blocked: Ctrl with `"U"` and a plain `"u"` pass, `"F12"` is blocked |
| `Keys.LossBlocksEveryKey` | src/App.jsx:43-46 | a listener that captured `Lose` blocks every key |
| `Glitch.PaletteIndex` | src/App.jsx:114 | `Math.floor(u * 12)` for `u` in `[0, 1)` is a valid palette index, and index `i` is chosen exactly by the draws in `[i/12, (i+1)/12)` |
| `Glitch.Overlay` | src/App.jsx:111-116 | the overlay has exactly 20 lines of 80 characters, each from the palette `01▓▒░#@$%^&*`; draw `80i + j` picks character `j` of line `i` |

## Left out

- `window.crypto.subtle.digest` and `TextEncoder` are foreign calls. The digests are inputs (sequences of bytes, 32 per cell), not computed SHA-256 values, and the salted random text fed to them is not modelled.
- `Math.random` is a stream of draws `random(k)` in `[0, 1)`. `Math.floor(u * 12)` is computed over the reals, not with IEEE-754 doubles (for `u < 1` a double product never reaches 12, so the index bound is the same).
- `Promise.all` and the asynchronous, all-or-nothing publication of the grid: only the transformation of the resolved list is modelled (`Grid.BuildMatrix`, `PuzzleGame.ReceiveDigests`).
- React hooks, re-rendering, JSX and Tailwind layout, the static titles and messages, and `requestFullscreen` (a browser call whose failure is ignored) are not modelled. Only the `fullScreen` state flag is.
- `e.preventDefault()` in the submit handler (it stops the page from reloading) is not modelled.
- Listener registration and teardown (src/App.jsx:40-51) are not modelled, and neither is the `contextmenu` listener, which always prevents the default. Because the cleanup at src/App.jsx:50 removes a new anonymous function, no `keydown` listener is ever removed. Listeners pile up, one per phase change, and each has its own captured phase. A key is blocked when any listener blocks it; `Keys.HandleKeydown` passes the `defaultPrevented` flag through, so that rule follows.
- Real time: the ten-second delay is the constant `LeaveGuardDelayMs` carried by the pending timer. Its expiry is the explicit event `GuardTimerFires`.
