/**
 * The module-level state of src/index.js and the handlers that change it:
 * the viewport size (WIDTH, HEIGHT), the layout table `positions`, and the
 * secret-sequence variables `lastKeys` and `rainMode`. onResize rebuilds
 * the layout table, the keydown handler filters key names and calls
 * addLetter, which spawns a body and feeds secretWords.
 *
 * The physics engine, renderer and DOM are outside the model: what the
 * handlers do to them is returned as a list of effects (sounds played,
 * bodies added, sprites preloaded).
 */
module App {
  import opened Wrappers
  import Keyboard
  import Images
  import KeyNames
  import Secret
  import Spawn

  /** A call into the outside world: playSound(name) or Composite.add(engine.world, [ball]). */
  datatype Effect = PlaySound(name: string) | AddBody(ball: Spawn.Ball)

  /** What secretWords(key) plays. */
  function SecretEffects(d: Secret.Detector, key: string): seq<Effect> {
    if Secret.RainCue(d, key) then [PlaySound("rain")] else []
  }

  /** What addLetter(key, x, y) does, in order: the 'type' sound, the new body, then secretWords. */
  function LetterEffects(key: string, x: real, y: real, height: int, d: Secret.Detector, clock: nat): seq<Effect> {
    [PlaySound("type"), AddBody(Spawn.NewBall(key, x, y, height, d.rainMode, clock))] + SecretEffects(d, key)
  }

  class Session {
    var width: nat
    var height: nat
    var positions: map<string, real>
    var lastKeys: string
    var rainMode: bool
    /** The sprites the load-time onResize() preloaded, in order. */
    ghost var loadPreloads: seq<string>

    /** `positions` is always the layout table of the current width. */
    ghost predicate Valid()
      reads this`positions, this`width
    {
      positions == Keyboard.Positions(width as real)
    }

    ghost function Detector(): Secret.Detector
      reads this
    {
      Secret.Detector(lastKeys, rainMode)
    }

    /** Loading the script: the variables start empty, then onResize() runs once. */
    constructor (w: nat, h: nat)
      ensures Valid() && width == w && height == h
      ensures Detector() == Secret.INITIAL
      ensures loadPreloads == Images.ImagePaths(Keyboard.LayoutKeys(Keyboard.KEYS, |Keyboard.KEYS|))
    {
      positions := map[];
      lastKeys, rainMode := "", false;
      new;
      loadPreloads := OnResize(w, h);
    }

    /**
     * onResize: take the new viewport size and rebuild the layout table.
     * It needs only that the table holds no name outside the layout, as
     * the empty table at load and every table it leaves behind do.
     */
    method OnResize(w: nat, h: nat) returns (preloaded: seq<string>)
      requires forall key :: key in positions ==> Keyboard.Cell(key).Some?
      modifies this`width, this`height, this`positions
      ensures Valid() && width == w && height == h
      ensures Detector() == old(Detector())
      ensures preloaded == Images.ImagePaths(Keyboard.LayoutKeys(Keyboard.KEYS, |Keyboard.KEYS|))
    {
      ghost var before := positions;
      width, height := w, h;
      preloaded := GeneratePositions();
      Keyboard.Regenerate(before, w as real);
    }

    /**
     * generatePositions: write the position of every key of KEYS into
     * `positions`, row by row and column by column, and preload its sprite.
     * Entries are added or overwritten, never removed.
     */
    method GeneratePositions() returns (preloaded: seq<string>)
      modifies this`positions
      ensures positions == Keyboard.PlaceRows(old(positions), Keyboard.KEYS, |Keyboard.KEYS|, width as real)
      ensures old(positions).Keys <= positions.Keys
      ensures preloaded == Images.ImagePaths(Keyboard.LayoutKeys(Keyboard.KEYS, |Keyboard.KEYS|))
    {
      preloaded := PlaceLayout(Keyboard.KEYS);
      Keyboard.PlaceRowsKeepsKeys(old(positions), Keyboard.KEYS, |Keyboard.KEYS|, width as real);
    }

    /** The two nested forEach loops of generatePositions, over any layout of rows. */
    method PlaceLayout(rows: seq<seq<Option<string>>>) returns (preloaded: seq<string>)
      modifies this`positions
      ensures positions == Keyboard.PlaceRows(old(positions), rows, |rows|, width as real)
      ensures preloaded == Images.ImagePaths(Keyboard.LayoutKeys(rows, |rows|))
    {
      var w := width as real;
      preloaded := [];
      var r := 0;
      while r < |rows|
        invariant r <= |rows|
        invariant positions == Keyboard.PlaceRows(old(positions), rows, r, w)
        invariant preloaded == Images.ImagePaths(Keyboard.LayoutKeys(rows, r))
      {
        LayoutStep(old(positions), rows, r, w);
        var paths := PlaceRowKeys(rows[r]);
        preloaded := preloaded + paths;
        r := r + 1;
      }
    }

    /** The inner forEach: place each key of one row at its slot and preload its sprite. */
    method PlaceRowKeys(row: seq<Option<string>>) returns (preloaded: seq<string>)
      modifies this`positions
      ensures positions == Keyboard.PlaceRow(old(positions), row, |row|, width as real)
      ensures preloaded == Images.ImagePaths(Keyboard.RowKeys(row, |row|))
    {
      var w := width as real;
      preloaded := [];
      var i := 0;
      while i < |row|
        invariant i <= |row|
        invariant positions == Keyboard.PlaceRow(old(positions), row, i, w)
        invariant preloaded == Images.ImagePaths(Keyboard.RowKeys(row, i))
      {
        var letter := row[i];
        ghost var seen := Keyboard.RowKeys(row, i);
        if letter.Some? && letter.value != "" {
          positions := positions[letter.value := Keyboard.Slot(i, |row|, w)];
          Images.ImagePathsSnoc(seen, letter.value);
          preloaded := preloaded + [Images.ImagePath(letter.value)];
          assert Keyboard.RowKeys(row, i + 1) == seen + [letter.value];
        } else {
          assert Keyboard.RowKeys(row, i + 1) == seen;
        }
        i := i + 1;
      }
    }

    /** secretWords(key): slide the buffer, flip rain mode on a match, play 'rain' when it turns on. */
    method SecretWords(key: string) returns (effects: seq<Effect>)
      modifies this`lastKeys, this`rainMode
      ensures Detector() == Secret.Observe(old(Detector()), key)
      ensures effects == SecretEffects(old(Detector()), key)
    {
      lastKeys := Secret.SliceLast(lastKeys, 3) + key;
      effects := [];
      if lastKeys == Secret.SECRET {
        rainMode := !rainMode;
        if rainMode {
          effects := [PlaySound("rain")];
        }
      }
    }

    /** addLetter(key, x, y): spawn the body in the mode in force before this key, then feed secretWords. */
    method AddLetter(key: string, x: real, y: real, clock: nat) returns (effects: seq<Effect>)
      modifies this`lastKeys, this`rainMode
      ensures Detector() == Secret.Observe(old(Detector()), key)
      ensures effects == LetterEffects(key, x, y, height, old(Detector()), clock)
    {
      var ball := Spawn.NewBall(key, x, y, height, rainMode, clock);
      effects := [PlaySound("type"), AddBody(ball)];
      var rest := SecretWords(key);
      effects := effects + rest;
    }

    /** The keydown handler, given the vkey name of the pressed key's code (None when the table has none). */
    method KeyDown(lookup: Option<string>, clock: nat) returns (effects: seq<Effect>)
      modifies this`lastKeys, this`rainMode
      ensures match KeyNames.Accept(lookup, positions)
              case None => effects == [] && Detector() == old(Detector())
              case Some(key) =>
                effects == LetterEffects(key, positions[key], height as real - 50.0, height, old(Detector()), clock) &&
                Detector() == Secret.Observe(old(Detector()), key)
    {
      effects := [];
      if lookup.None? {
        return;
      }
      var key := KeyNames.Normalize(lookup.value);
      if key in positions {
        effects := AddLetter(key, positions[key], height as real - 50.0, clock);
      }
    }
  }

  /** One more row of the outer loop: its writes and its preloads come after those of the rows before. */
  lemma LayoutStep(m: map<string, real>, rows: seq<seq<Option<string>>>, r: nat, width: real)
    requires r < |rows|
    ensures Keyboard.PlaceRows(m, rows, r + 1, width) ==
            Keyboard.PlaceRow(Keyboard.PlaceRows(m, rows, r, width), rows[r], |rows[r]|, width)
    ensures Images.ImagePaths(Keyboard.LayoutKeys(rows, r + 1)) ==
            Images.ImagePaths(Keyboard.LayoutKeys(rows, r)) + Images.ImagePaths(Keyboard.RowKeys(rows[r], |rows[r]|))
  {
    Images.ImagePathsConcat(Keyboard.LayoutKeys(rows, r), Keyboard.RowKeys(rows[r], |rows[r]|));
  }

  // ------------------------------------------- the handler and the layout

  /**
   * With the table of any width, a key code leads to a body exactly when
   * its name exists and the normalised name is a key of KEYS; for a
   * positive width the spawn x, `positions[key]`, lies strictly between
   * 0 and the width.
   */
  lemma AcceptedIffInLayout(lookup: Option<string>, width: real)
    ensures KeyNames.Accept(lookup, Keyboard.Positions(width)).Some? <==>
            lookup.Some? && Keyboard.Cell(KeyNames.Normalize(lookup.value)).Some?
    ensures width > 0.0 && KeyNames.Accept(lookup, Keyboard.Positions(width)).Some? ==>
            var key := KeyNames.Accept(lookup, Keyboard.Positions(width)).value;
            0.0 < Keyboard.Positions(width)[key] < width
  {
    if lookup.Some? {
      var key := KeyNames.Normalize(lookup.value);
      Keyboard.PositionsDomain(width, key);
      if width > 0.0 && key in Keyboard.Positions(width) {
        Keyboard.PositionsInside(width, key);
      }
    }
  }

  /**
   * For every key that gets through the filter, secretWords matches exactly
   * when the key is "N" and the buffer ends in "RAI": a numeric-pad key
   * never completes the word.
   */
  lemma AcceptedKeyToggle(d: Secret.Detector, lookup: Option<string>, width: real)
    requires KeyNames.Accept(lookup, Keyboard.Positions(width)).Some?
    ensures var key := KeyNames.Accept(lookup, Keyboard.Positions(width)).value;
            Secret.Toggles(d, key) <==>
            key == "N" && |d.lastKeys| >= 3 && d.lastKeys[|d.lastKeys| - 3..] == "RAI"
  {
    var key := KeyNames.Accept(lookup, Keyboard.Positions(width)).value;
    Keyboard.PositionsDomain(width, key);
    if |key| == 1 {
      Secret.SingleCharToggle(d, key);
    } else {
      Secret.LongKeyWindow(d, key);
    }
  }

  /**
   * Every key of the layout has its sprite among the preloads of one
   * generatePositions run, and the run visits every key once. (A sprite can
   * still be preloaded twice: `7` and `num-7` share `./img/7.png`.)
   */
  lemma PreloadsCoverLayout(key: string)
    requires Keyboard.Cell(key).Some?
    ensures Images.ImagePath(key) in Images.ImagePaths(Keyboard.LayoutKeys(Keyboard.KEYS, |Keyboard.KEYS|))
    ensures Keyboard.Distinct(Keyboard.LayoutKeys(Keyboard.KEYS, |Keyboard.KEYS|))
  {
    var visited := Keyboard.LayoutKeys(Keyboard.KEYS, |Keyboard.KEYS|);
    Keyboard.LayoutVisitsEachKeyOnce(key);
    var j :| 0 <= j < |visited| && visited[j] == key;
    Images.ImagePathsAt(visited, j);
  }
}
