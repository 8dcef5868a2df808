/**
 * getImagePath of src/index.js: the sprite file of a key. A numeric-pad
 * prefix `num-` is stripped once, five punctuation names are spelled out
 * as words, and the result is wrapped as `./img/<name>.png`.
 */
module Images {

  const NUM_PREFIX := "num-"

  /** `key.indexOf('num-') === 0`. */
  predicate HasNumPrefix(key: string) {
    |key| >= 4 && key[..4] == NUM_PREFIX
  }

  /** `key.substring(4)` when the key starts with `num-`. */
  function StripNum(key: string): string {
    if HasNumPrefix(key) then key[4..] else key
  }

  /** One of the five `if (key === from) key = to;` statements. */
  function Substitute(name: string, from: string, to: string): string {
    if name == from then to else name
  }

  /** The five substitutions, applied one after the other as the source does. */
  function Rename(name: string): string {
    var a := Substitute(name, "*", "star");
    var b := Substitute(a, "+", "plus");
    var c := Substitute(b, ".", "dot");
    var d := Substitute(c, "/", "slash");
    Substitute(d, "\\", "backslash")
  }

  /** The file name (without extension) of a key's sprite. */
  function ImageName(key: string): string {
    Rename(StripNum(key))
  }

  /** getImagePath(key). */
  function ImagePath(key: string): string {
    "./img/" + ImageName(key) + ".png"
  }

  /** The sprite paths of a sequence of keys, in order. */
  function ImagePaths(keys: seq<string>): (paths: seq<string>)
    ensures |paths| == |keys|
  {
    if keys == [] then [] else ImagePaths(keys[..|keys| - 1]) + [ImagePath(keys[|keys| - 1])]
  }

  /** The j-th preloaded path is the sprite of the j-th key. */
  lemma {:induction false} ImagePathsAt(keys: seq<string>, j: nat)
    requires j < |keys|
    ensures ImagePaths(keys)[j] == ImagePath(keys[j])
    decreases |keys|
  {
    if j < |keys| - 1 {
      ImagePathsAt(keys[..|keys| - 1], j);
    }
  }

  /** Preloading one more key appends its path. */
  lemma ImagePathsSnoc(keys: seq<string>, key: string)
    ensures ImagePaths(keys + [key]) == ImagePaths(keys) + [ImagePath(key)]
  {
    assert (keys + [key])[..|keys|] == keys;
  }

  /** The paths of two runs of keys are the paths of each, one after the other. */
  lemma {:induction false} ImagePathsConcat(a: seq<string>, b: seq<string>)
    ensures ImagePaths(a + b) == ImagePaths(a) + ImagePaths(b)
    decreases |b|
  {
    if b != [] {
      var b' := b[..|b| - 1];
      var last := b[|b| - 1];
      assert b == b' + [last];
      assert a + b == (a + b') + [last];
      ImagePathsConcat(a, b');
      ImagePathsSnoc(a + b', last);
      ImagePathsSnoc(b', last);
    } else {
      assert a + b == a;
    }
  }

  /** Every path has the form './img/' + name + '.png', and the name can be read back from it. */
  lemma PathShape(key: string)
    ensures |ImagePath(key)| == 10 + |ImageName(key)|
    ensures ImagePath(key)[..6] == "./img/"
    ensures ImagePath(key)[|ImagePath(key)| - 4..] == ".png"
    ensures ImagePath(key)[6..|ImagePath(key)| - 4] == ImageName(key)
  {
  }

  /** The five punctuation names become words. */
  lemma RenamedPunctuation()
    ensures Rename("*") == "star" && Rename("+") == "plus" && Rename(".") == "dot"
    ensures Rename("/") == "slash" && Rename("\\") == "backslash"
  {
  }

  /** Every other name passes through unchanged (the substitutions do not chain). */
  lemma RenameKeepsOthers(name: string)
    requires name != "*" && name != "+" && name != "." && name != "/" && name != "\\"
    ensures Rename(name) == name
  {
  }

  /** The `num-` prefix is stripped exactly once: a numeric-pad key shares the sprite of its main-block twin. */
  lemma NumPrefixStrippedOnce(key: string)
    requires !HasNumPrefix(key)
    ensures ImagePath(NUM_PREFIX + key) == ImagePath(key)
  {
    var k := NUM_PREFIX + key;
    assert k[..4] == NUM_PREFIX && k[4..] == key;
  }

  /** Only one prefix is stripped: 'num-num-7' names the sprite 'num-7'. */
  lemma NumPrefixNotRepeated()
    ensures ImagePath("num-num-7") == "./img/num-7.png"
  {
    assert "num-num-7"[..4] == NUM_PREFIX && "num-num-7"[4..] == "num-7";
  }

  /** Examples from the numeric pad: 'num--' keeps its '-', 'num-.' becomes 'dot'. */
  lemma NumPadExamples()
    ensures ImagePath("num--") == "./img/-.png"
    ensures ImagePath("num-.") == "./img/dot.png"
    ensures ImagePath("\\") == "./img/backslash.png"
  {
    assert HasNumPrefix("num--") && "num--"[4..] == "-";
    assert HasNumPrefix("num-.") && "num-."[4..] == ".";
  }
}
