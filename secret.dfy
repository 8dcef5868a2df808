/**
 * secretWords of src/index.js: the hidden "RAIN" toggle. The buffer
 * `lastKeys` is a sliding window over characters, not over keys: each key
 * name is appended to the last three characters of the buffer, so after a
 * numeric-pad key such as 'num-7' the buffer is longer than four. Rain mode
 * flips whenever the buffer is exactly "RAIN", and the 'rain' sound plays
 * when the flip turns it on.
 */
module Secret {

  const SECRET := "RAIN"

  /** JavaScript's `s.slice(-n)` for n > 0: the suffix of s of length n, or all of s when shorter. */
  function SliceLast(s: string, n: nat): (r: string)
    requires n > 0
    ensures |r| == if |s| < n then |s| else n
    ensures r == s[|s| - |r|..]
  {
    if |s| <= n then s else s[|s| - n..]
  }

  /** The two module-level variables secretWords works on. */
  datatype Detector = Detector(lastKeys: string, rainMode: bool)

  /** The state before the first key press; the undefined initial rainMode behaves as false. */
  const INITIAL := Detector("", false)

  /** `lastKeys.slice(-3) + key`. */
  function Window(lastKeys: string, key: string): string {
    SliceLast(lastKeys, 3) + key
  }

  /** Whether the buffer after this key is the secret word. */
  predicate Toggles(d: Detector, key: string) {
    Window(d.lastKeys, key) == SECRET
  }

  /** The state after secretWords(key). */
  function Observe(d: Detector, key: string): Detector {
    var buffer := Window(d.lastKeys, key);
    Detector(buffer, if buffer == SECRET then !d.rainMode else d.rainMode)
  }

  /** Whether secretWords(key) calls playSound('rain'): the buffer matched and the mode is now on. */
  predicate RainCue(d: Detector, key: string) {
    var next := Observe(d, key);
    next.lastKeys == SECRET && next.rainMode
  }

  /** The state after a sequence of calls to secretWords, in order. */
  function Feed(d: Detector, keys: seq<string>): Detector
    decreases |keys|
  {
    if keys == [] then d else Feed(Observe(d, keys[0]), keys[1..])
  }

  /** How many of those calls flip rain mode. */
  function ToggleCount(d: Detector, keys: seq<string>): nat
    decreases |keys|
  {
    if keys == [] then 0
    else (if Toggles(d, keys[0]) then 1 else 0) + ToggleCount(Observe(d, keys[0]), keys[1..])
  }

  /** How many of those calls play the 'rain' sound. */
  function CueCount(d: Detector, keys: seq<string>): nat
    decreases |keys|
  {
    if keys == [] then 0
    else (if RainCue(d, keys[0]) then 1 else 0) + CueCount(Observe(d, keys[0]), keys[1..])
  }

  // ------------------------------------------------------------ one call

  /** The new buffer is the last (up to) three characters of the old one followed by the key. */
  lemma WindowShape(lastKeys: string, key: string)
    ensures var w := Window(lastKeys, key);
            var kept := if |lastKeys| < 3 then |lastKeys| else 3;
            |w| == kept + |key| &&
            w[..kept] == lastKeys[|lastKeys| - kept..] &&
            w[kept..] == key
  {
  }

  /** With one-character keys the buffer never grows past four characters. */
  lemma SingleCharWindow(lastKeys: string, key: string)
    requires |key| == 1
    ensures |Window(lastKeys, key)| <= 4
  {
  }

  /** A numeric-pad name such as 'num-7' leaves a buffer of five or more characters, which cannot match. */
  lemma LongKeyWindow(d: Detector, key: string)
    requires |key| >= 5
    ensures |Observe(d, key).lastKeys| >= 5
    ensures !Toggles(d, key) && Observe(d, key).rainMode == d.rainMode
  {
  }

  /** Rain mode flips exactly when the new buffer is "RAIN", and is otherwise unchanged. */
  lemma ToggleIff(d: Detector, key: string)
    ensures Observe(d, key).lastKeys == Window(d.lastKeys, key)
    ensures Observe(d, key).rainMode != d.rainMode <==> Observe(d, key).lastKeys == SECRET
  {
  }

  /** The 'rain' sound plays exactly when a flip turns the mode on; never when it turns it off, never without a flip. */
  lemma CueIff(d: Detector, key: string)
    ensures RainCue(d, key) <==> Toggles(d, key) && !d.rainMode
  {
  }

  /** For a one-character key: the buffer matches exactly when the key is "N" and the old buffer ends in "RAI". */
  lemma SingleCharToggle(d: Detector, key: string)
    requires |key| == 1
    ensures Toggles(d, key) <==>
            key == "N" && |d.lastKeys| >= 3 && d.lastKeys[|d.lastKeys| - 3..] == "RAI"
  {
    var w := Window(d.lastKeys, key);
    WindowShape(d.lastKeys, key);
    if Toggles(d, key) {
      assert w[3..] == key && w[..3] == "RAI";
    }
    if key == "N" && |d.lastKeys| >= 3 && d.lastKeys[|d.lastKeys| - 3..] == "RAI" {
      assert w == "RAI" + "N";
    }
  }

  /** Right after a match the buffer starts with "AIN", so the next key cannot match again. */
  lemma NoImmediateRetrigger(d: Detector, key: string)
    requires d.lastKeys == SECRET
    ensures !Toggles(d, key)
  {
    var w := Window(d.lastKeys, key);
    assert SliceLast(SECRET, 3) == "AIN";
    assert w[0] == 'A' != SECRET[0];
  }

  // ------------------------------------------------------- many calls

  /** From a short buffer, one-character keys keep the buffer at four characters or fewer. */
  lemma {:induction false} FeedSingleCharsBounded(d: Detector, keys: seq<string>)
    requires |d.lastKeys| <= 4
    requires forall j :: 0 <= j < |keys| ==> |keys[j]| == 1
    ensures |Feed(d, keys).lastKeys| <= 4
    decreases |keys|
  {
    if keys != [] {
      FeedSingleCharsBounded(Observe(d, keys[0]), keys[1..]);
    }
  }

  /** The final mode is the initial mode flipped once per match. */
  lemma {:induction false} ModeParity(d: Detector, keys: seq<string>)
    ensures Feed(d, keys).rainMode == (d.rainMode != (ToggleCount(d, keys) % 2 == 1))
    decreases |keys|
  {
    if keys != [] {
      var next := Observe(d, keys[0]);
      var flips := Toggles(d, keys[0]);
      var rest := ToggleCount(next, keys[1..]);
      ModeParity(next, keys[1..]);
      assert next.rainMode == (d.rainMode != flips);
      assert ToggleCount(d, keys) == (if flips then 1 else 0) + rest;
      assert Feed(d, keys) == Feed(next, keys[1..]);
      FlipParity(d.rainMode, flips, rest);
    }
  }

  /** Flipping once more changes the parity of the count by one. */
  lemma FlipParity(mode: bool, flips: bool, n: nat)
    ensures ((mode != flips) != (n % 2 == 1)) == (mode != (((if flips then 1 else 0) + n) % 2 == 1))
  {
  }

  /** The 'rain' sound plays on every other flip, on the first one when the mode starts off. */
  lemma {:induction false} CuesPerToggle(d: Detector, keys: seq<string>)
    ensures CueCount(d, keys) == (ToggleCount(d, keys) + (if d.rainMode then 0 else 1)) / 2
    decreases |keys|
  {
    if keys != [] {
      var next := Observe(d, keys[0]);
      var flips := Toggles(d, keys[0]);
      var rest := ToggleCount(next, keys[1..]);
      CuesPerToggle(next, keys[1..]);
      CueIff(d, keys[0]);
      assert next.rainMode == (d.rainMode != flips);
      assert ToggleCount(d, keys) == (if flips then 1 else 0) + rest;
      assert CueCount(d, keys) == (if flips && !d.rainMode then 1 else 0) + CueCount(next, keys[1..]);
      CueStep(d.rainMode, flips, rest);
    }
  }

  /** One more call adds a cue exactly when it moves the halved count of "on" flips. */
  lemma CueStep(mode: bool, flips: bool, n: nat)
    ensures (if flips && !mode then 1 else 0) + (n + (if mode != flips then 0 else 1)) / 2 ==
            ((if flips then 1 else 0) + n + (if mode then 0 else 1)) / 2
  {
  }

  /** From an empty buffer, "X", "R", "A", "I", "N" flip the mode once, only at "N". */
  lemma SecretSequence(mode: bool)
    ensures Observe(Detector("", mode), "X") == Detector("X", mode)
    ensures Observe(Detector("X", mode), "R") == Detector("XR", mode)
    ensures Observe(Detector("XR", mode), "A") == Detector("XRA", mode)
    ensures Observe(Detector("XRA", mode), "I") == Detector("XRAI", mode)
    ensures Observe(Detector("XRAI", mode), "N") == Detector(SECRET, !mode)
  {
    assert SliceLast("XRAI", 3) == "RAI";
    assert "RAI" + "N" == SECRET;
    assert "XRA" + "I" == "XRAI";
  }
}
