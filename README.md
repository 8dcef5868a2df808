# magic_keyboard, modelled in Dafny

This project models the logic of the browser toy in `src/index.js`. Each key
press drops a sprite onto the screen at the horizontal position of that key
on an on-screen keyboard layout. Typing `R`, `A`, `I`, `N` in a row switches
"rain mode" on or off. In rain mode, new sprites fall from above the viewport
instead of being thrown upward.

Modules, one per part of the script:

- `Keyboard` (`keyboard.dfy`): the `KEYS` layout, with its nine rows exactly
  as written in the source.
  - The table that `generatePositions` builds from it, as the prefix-recursive
    functions `PlaceRow`/`PlaceRows`. Later writes win, like
    `positions[letter] = …`.
  - `Cell`, an independent key-by-key description of where each key sits.
    It is used to prove that `KEYS` has no duplicate key, and to compute the
    table's domain and values.
- `Images` (`images.dfy`): `getImagePath`, which strips the `num-` prefix
  once, spells out five punctuation names, and wraps the result as
  `./img/<name>.png`.
- `KeyNames` (`keynames.dfy`): the keydown filter. It removes every `<` and
  `>` from the vkey name, ignores a missing name, and accepts the key only
  when it is in `positions`.
- `Secret` (`secret.dfy`): `secretWords`, as a value-level detector.
  - The buffer is `lastKeys.slice(-3) + key`, a window over *characters*.
  - The mode toggles exactly when that window is `"RAIN"`.
  - The `rain` cue plays only when the toggle turns the mode on.
  - Traces of many calls are covered too: mode parity and how many cues a
    trace gives.
- `Spawn` (`spawn.dfy`): the body that `addLetter` creates (radius,
  restitution, friction, texture, start position, force). The clock
  (`Date.now()`) is a parameter.
- `App` (`app.dfy`): the script's mutable state, as `class Session`.
  - Fields: `WIDTH`, `HEIGHT`, `positions`, `lastKeys`, `rainMode`.
  - Handlers, as methods: `onResize`, `generatePositions` with its two nested
    loops, `secretWords`, `addLetter` and the keydown handler.
  - The methods return the sounds, bodies and preloads the script hands to
    the browser and the engine, as a list of effects.
- `Wrappers` (`wrappers.dfy`): `Option`, which stands for JavaScript's
  `null`/`undefined`.

Two points where the code does something one might not expect:
- The buffer is not a window over the last four keys. Line 225 keeps the
  last three characters of the previous buffer and appends the whole new
  key name. A numeric-pad key such as `num-7` is five characters long, so
  it never completes the word (`Secret.LongKeyWindow`,
  `App.AcceptedKeyToggle`).
- In the collision handler, line 119 removes `bodyB` when `bodyB` is the
  platform, so it removes the platform itself. The collision handler is not
  part of this model (see below).

The layout `KEYS` (src/index.js:15-28) is the constant `Keyboard.KEYS`,
copied row by row. What is proved about it is listed below under
`Keyboard.KeysAgreeWithCell`, `Keyboard.CellInKeys` and
`Keyboard.NoDuplicateKeys`.

## Model

| member | source | states |
|---|---|---|
| Keyboard.IsKey | src/index.js:97-99 | the cells the loop does not skip: `!letter` skips `null` and the empty string, so a cell counts iff it is non-null and non-empty |
| Keyboard.Slot | src/index.js:101 | models `((i / row.length) + (0.5 / row.length)) * WIDTH`; what it means is stated by `SlotInside` and `SlotIncreasing` |
| Keyboard.PlaceRow | src/index.js:96-105 | models the inner forEach: the table after the first n cells of one row, with null and empty cells skipped; stated by `PlaceRowDomain`, `PlaceRowFrame` and `PlaceRowAt` |
| Keyboard.PlaceRows | src/index.js:95-106 | models the outer forEach over the first n rows; stated by `PlaceRowsUnion`, `PlaceRowsDomain` and `PlaceRowsAt` |
| Keyboard.Positions | src/index.js:94-107 | models the table generatePositions leaves in an empty `positions`; stated by `PositionsDomain`, `PositionsAt` and `PositionsInside` |
| Keyboard.RowKeys | src/index.js:96-104 | the keys one row visits, in order; stated by `RowKeysMember` and `RowKeysDistinct` |
| Keyboard.LayoutKeys | src/index.js:95-104 | the keys all rows visit, in order, which is the order of the preloads; stated by `LayoutKeysMember`, `LayoutKeysDistinct` and `LayoutVisitsEachKeyOnce` |
| Keyboard.RowKeysMember | src/index.js:96-104 | a row visits a name iff one of its non-skipped cells holds it |
| Keyboard.LayoutKeysMember | src/index.js:95-104 | the rows visit a name iff one of their non-skipped cells holds it |
| Keyboard.RowKeysDistinct | src/index.js:96-104 | a row whose keys occur once visits no key twice |
| Keyboard.LayoutKeysDistinct | src/index.js:95-104 | rows whose keys occur once visit no key twice |
| Keyboard.LayoutVisitsEachKeyOnce | src/index.js:94-107 | generatePositions over KEYS visits exactly the keys `Cell` knows, each once |
| Keyboard.PlaceRowsKeepsKeys | src/index.js:94-107 | every key of the old table is still in the table after the loops |
| Keyboard.SlotInside | src/index.js:101 | for a positive width, the centre of column i of a row of n cells lies strictly inside (0, width) |
| Keyboard.SlotIncreasing | src/index.js:101 | of two columns of the same row, the one further right gets the larger x |
| Keyboard.PlaceRowsUnion | src/index.js:94-107 | generatePositions only adds or overwrites entries of `positions`: the result is the old table overridden by the table of the layout alone |
| Keyboard.PlaceRowsDomain | src/index.js:94-101 | a name is in the table after the loops iff it was before or it is a non-skipped (non-null, non-empty) cell of one of the visited rows |
| Keyboard.PlaceRowFrame | src/index.js:96-101 | a name that no visited cell holds keeps whatever entry it had |
| Keyboard.PlaceRowsAt | src/index.js:95-101 | a key that occurs once among the visited rows gets the slot of its own row and column, whatever came before |
| Keyboard.KeysAgreeWithCell | src/index.js:15-28 | every non-null cell of KEYS is where the independent table `Cell` says its key is |
| Keyboard.CellInKeys | src/index.js:15-28 | every key that `Cell` knows sits in KEYS at that row and column |
| Keyboard.NoDuplicateKeys | src/index.js:15-28 | no key occurs twice in KEYS, so no write of generatePositions is overridden by a later one |
| Keyboard.PositionsDomain | src/index.js:94-107 | the keys of `positions` are exactly the 62 names of KEYS (the 47 main keys and the 15 `num-` keys) |
| Keyboard.PositionsAt | src/index.js:101 | the entry of each key is the centre of its own cell: ((i / row.length) + (0.5 / row.length)) * WIDTH |
| Keyboard.PositionsInside | src/index.js:101 | for a positive width, every entry lies strictly between 0 and WIDTH |
| Keyboard.Regenerate | src/index.js:39-48 | re-running the loops over a table holding only layout keys (any earlier width) yields exactly the table of the new width: no stale entry survives a resize |
| Keyboard.RegenerateSameWidth | src/index.js:94-107 | generatePositions is idempotent for an unchanged width |
| Images.HasNumPrefix | src/index.js:238 | `key.indexOf('num-') === 0`: the key is at least four characters long and its first four are `num-` |
| Images.StripNum | src/index.js:238-240 | models the `num-` prefix test and `substring(4)`; stated by `NumPrefixStrippedOnce` and `NumPrefixNotRepeated` |
| Images.Substitute | src/index.js:242-246 | one `if (key === from) key = to;`: the name becomes `to` iff it equals `from`, otherwise it is kept |
| Images.Rename | src/index.js:242-246 | models the five substitutions, applied in order; stated by `RenamedPunctuation` and `RenameKeepsOthers` |
| Images.ImageName | src/index.js:238-246 | the `num-` prefix is stripped once, then the five substitutions run; the name read back by `PathShape` |
| Images.ImagePath | src/index.js:237-249 | models getImagePath; stated by `PathShape` and the lemmas below |
| Images.ImagePaths | src/index.js:104 | the preload URLs of a sequence of visited keys, as many as there are keys |
| Images.ImagePathsSnoc | src/index.js:104 | preloading one more key appends its path |
| Images.ImagePathsAt | src/index.js:104 | the j-th preloaded URL is the sprite path of the j-th visited key |
| Images.ImagePathsConcat | src/index.js:95-105 | the preloads of two runs of keys are the preloads of each, in order |
| Images.PathShape | src/index.js:248 | every path is `./img/` + name + `.png`, and the name can be read back out of it |
| Images.RenamedPunctuation | src/index.js:242-246 | `*`, `+`, `.`, `/`, `\` become star, plus, dot, slash, backslash |
| Images.RenameKeepsOthers | src/index.js:242-246 | every other name is left as it is |
| Images.NumPrefixStrippedOnce | src/index.js:238-240 | a `num-` key uses the same sprite as the key without the prefix |
| Images.NumPrefixNotRepeated | src/index.js:238-240 | the prefix is stripped only once: `num-num-7` gives `./img/num-7.png` |
| Images.NumPadExamples | src/index.js:237-249 | `num--` gives `./img/-.png`, `num-.` gives `./img/dot.png`, `\` gives `./img/backslash.png` |
| KeyNames.Normalize | src/index.js:175 | models `key.replace(/</g, '').replace(/>/g, '')`; stated by the `Normalize…` lemmas below |
| KeyNames.Accept | src/index.js:169-178 | models the keydown filter: a missing name is dropped, the normal form is accepted only when it is in `positions`; stated by `AcceptIff` |
| KeyNames.Without | src/index.js:175 | removing every occurrence of one character: it is absent afterwards, every other character is kept as often as it occurred, and nothing is added |
| KeyNames.WithoutConcat | src/index.js:175 | the removal works piece by piece on a concatenation |
| KeyNames.NormalizeRemovesBrackets | src/index.js:175 | the normalised name has no `<` or `>` and keeps every other character of the vkey name |
| KeyNames.NormalizeKeepsPlain | src/index.js:175 | a name without brackets is unchanged |
| KeyNames.NormalizeIdempotent | src/index.js:175 | normalising twice is normalising once |
| KeyNames.NormalizeDecorated | src/index.js:175 | a vkey name of the form `<name>` becomes `name` |
| KeyNames.AcceptIff | src/index.js:169-178 | a key is accepted iff vkey has a name for the code and the normalised name is in `positions`; the accepted key is that normalised name |
| Secret.Window | src/index.js:225 | models `lastKeys.slice(-3) + key`; stated by `WindowShape`, `SingleCharWindow` and `LongKeyWindow` |
| Secret.Toggles | src/index.js:227 | `lastKeys === 'RAIN'` after the window update; stated by `ToggleIff` and `SingleCharToggle` |
| Secret.Observe | src/index.js:224-234 | models one call of secretWords on the buffer and the mode; stated by `ToggleIff` and `SingleCharToggle` |
| Secret.RainCue | src/index.js:230-232 | models when `playSound('rain')` runs; stated by `CueIff` |
| Secret.Feed | src/index.js:224-234 | secretWords applied to a trace of keys; stated by `ModeParity` and `FeedSingleCharsBounded` |
| Secret.SliceLast | src/index.js:225 | `slice(-n)` for n > 0: the last min(n, length) characters |
| Secret.WindowShape | src/index.js:225 | the new buffer is at most three old characters followed by the whole key |
| Secret.SingleCharWindow | src/index.js:225 | while every key is one character long, the buffer holds at most four characters |
| Secret.LongKeyWindow | src/index.js:225-227 | a key of five or more characters never matches and leaves the mode unchanged |
| Secret.ToggleIff | src/index.js:225-228 | the mode flips iff the new buffer equals `RAIN` |
| Secret.CueIff | src/index.js:227-232 | the rain cue plays iff the mode flips and was off before |
| Secret.SingleCharToggle | src/index.js:225-227 | for a one-character key, the mode flips iff the key is `N` and the old buffer ends in `RAI` |
| Secret.NoImmediateRetrigger | src/index.js:225-227 | right after a match, the next key cannot match again |
| Secret.FeedSingleCharsBounded | src/index.js:225 | over a trace of one-character keys, the buffer never grows past four characters |
| Secret.ModeParity | src/index.js:224-234 | after a trace, the mode is the initial mode flipped once per match |
| Secret.CuesPerToggle | src/index.js:227-232 | the cue plays on every other match, starting with the first when the mode was off |
| Secret.SecretSequence | src/index.js:224-234 | typing X, R, A, I, N from an empty buffer flips the mode exactly at N |
| Spawn.Jitter | src/index.js:201 | models `(Date.now() % 10) * 0.004 - 0.02`, with the clock as a parameter; stated by `JitterRange` |
| Spawn.Kick | src/index.js:202 | models `-1 * HEIGHT / 3600`; stated by `KickUpward` |
| Spawn.NewBall | src/index.js:187-215 | models the body addLetter builds; stated by `BallShape`, `NormalLaunch` and `RainLaunch` |
| Spawn.JitterRange | src/index.js:201 | the horizontal kick lies in [-0.02, 0.016] and depends only on the clock modulo 10 |
| Spawn.NormalLaunch | src/index.js:190-203 | out of rain mode, the body starts at (x, y) with force (jitter, -HEIGHT/3600) |
| Spawn.KickUpward | src/index.js:202 | the vertical kick is upward and stronger for a taller viewport |
| Spawn.RainLaunch | src/index.js:205-215 | in rain mode, the body starts at (x, -30) with zero force, whatever the clock |
| Spawn.BallShape | src/index.js:190-198 | radius 30, restitution 0.9, friction 0.001, and the sprite of the key as texture |
| Spawn.SpawnExample | src/index.js:178-203 | key `A` at x 120 with height 800 starts at (120, 750) with vertical force -800/3600 |
| App.SecretEffects | src/index.js:230-232 | the sounds secretWords plays: `rain` exactly when `Secret.RainCue` holds |
| App.LetterEffects | src/index.js:187-222 | the calls addLetter makes, in order: the `type` sound, adding the body, then what secretWords plays |
| App.Session.constructor | src/index.js:86 | at load (the variables start empty, then onResize() runs once), the table is the layout of the initial width; the buffer starts empty and rain mode off, as lines 29 and 36-37 declare; the sprites preloaded at load are those of the keys visited, in order |
| App.Session.OnResize | src/index.js:39-48 | from any table that holds only layout names (the empty one at load included), `positions` becomes exactly the layout table of the new width; the secret-sequence state is unchanged and the preloads are those of the keys visited, in order |
| App.Session.GeneratePositions | src/index.js:94-107 | the table becomes the old one run through the loops over KEYS, no entry is dropped, and the preloads are the sprite paths of the layout keys in visiting order |
| App.Session.PlaceLayout | src/index.js:95-106 | the outer loop over rows: the table becomes `PlaceRows` of the old one over all rows, and the preloads are those of the keys visited, in order |
| App.Session.PlaceRowKeys | src/index.js:96-105 | the inner loop over one row: null cells are skipped, every key is written at its slot and preloaded |
| App.Session.SecretWords | src/index.js:224-234 | the new buffer and mode are those of `Secret.Observe`, and the rain sound plays exactly when `Secret.RainCue` holds |
| App.Session.AddLetter | src/index.js:187-222 | plays `type`, adds one body launched in the mode in force *before* this key, then runs secretWords |
| App.Session.KeyDown | src/index.js:168-180 | a rejected key changes nothing and does nothing; an accepted key runs addLetter at (positions[key], HEIGHT - 50) |
| App.AcceptedIffInLayout | src/index.js:169-178 | with the layout table, a key code spawns a body iff vkey names it and the normalised name is a KEYS key; for a positive width, the spawn x (`positions[key]`) lies strictly between 0 and WIDTH |
| App.AcceptedKeyToggle | src/index.js:225-228 | for every accepted key, the mode flips iff the key is `N` and the buffer ends in `RAI`; a numeric-pad key never flips it |
| App.LayoutStep | src/index.js:95-106 | one more row of the outer loop: its writes and its preloads come after those of the rows before |
| App.PreloadsCoverLayout | src/index.js:94-107 | the sprite of every layout key is among the preloads, and no key is visited twice (a sprite can still be preloaded twice, since `7` and `num-7` share `./img/7.png`) |

## Left out

- The Matter.js engine, renderer and runner (src/index.js:43-84, 159-166) are left out: they are a foreign library. What the handlers hand to them is returned as `App.Effect` values (`AddBody`, `PlaySound`) or preload paths.
- Resizing the canvas and renderer options (src/index.js:50-72) is DOM work, left out; only `WIDTH`, `HEIGHT` and the table are modelled.
- generateBoundaries (src/index.js:125-157) and the platform reference (line 82) are left out: they only build engine bodies.
- The collision handler (src/index.js:109-122) is left out because the world it acts on is not modelled. As written, line 119 removes `bodyB` when `bodyB` is the platform, which is the platform and not the other body.
- `preloadImg`, `playSound` and `document.getElementById` (src/index.js:89-92, 182-185) are I/O. They appear only as the effect lists and preload lists the methods return; the preloads of the load-time onResize() are kept in the ghost field `App.Session.loadPreloads`.
- The vkey table (src/index.js:169) is a foreign package. The keydown handler takes the looked-up name as an `Option<string>` parameter, and `None` stands for `null`/`undefined`.
- `key in positions` (src/index.js:177) on a plain object also sees names inherited from `Object.prototype` (such as `toString`). The model treats `positions` as a map with no inherited names. The vkey table is not part of this model, so whether it can yield such a name is not covered.
- `Date.now()` (src/index.js:201) is the `clock: nat` parameter.
- Secret.SliceLast: models `slice(-n)` only for n > 0, the one use being n = 3; JavaScript counts UTF-16 code units where Dafny's `char` is a Unicode scalar value. The two agree on the ASCII names that reach secretWords through the filter.
- Floating point is not modelled: positions and forces are exact reals. `WIDTH` and `HEIGHT` are `nat` viewport sizes, and `HEIGHT - 50` is computed on reals.
- `rainMode` starts `undefined` in the script (src/index.js:37). The model starts it as `false`. `!undefined` is `true` and `if (undefined)` is not taken, so the two behave the same.
