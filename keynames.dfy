/**
 * The start of the keydown handler of src/index.js: the key name the
 * `vkey` table gives for a key code (absent for unknown codes) is cleaned
 * of the angle brackets around names such as `<shift>`, and the cleaned
 * name is accepted only if the layout table has a position for it.
 */
module KeyNames {
  import opened Wrappers

  /** `s.replace(/c/g, '')`: s with every occurrence of c removed. */
  function Without(s: string, c: char): (r: string)
    ensures c !in r
    ensures forall d :: d != c ==> (d in r <==> d in s)
    ensures |r| <= |s|
    ensures multiset(r) == multiset(s)[c := 0]
  {
    if s == [] then []
    else
      assert s == [s[0]] + s[1..];
      (if s[0] == c then [] else [s[0]]) + Without(s[1..], c)
  }

  /** `key.replace(/</g, '').replace(/>/g, '')`. */
  function Normalize(name: string): string {
    Without(Without(name, '<'), '>')
  }

  /** Removing a character works piece by piece: it keeps the order of the rest. */
  lemma {:induction false} WithoutConcat(a: string, b: string, c: char)
    ensures Without(a + b, c) == Without(a, c) + Without(b, c)
  {
    if a == [] {
      assert a + b == b;
    } else {
      assert (a + b)[0] == a[0] && (a + b)[1..] == a[1..] + b;
      WithoutConcat(a[1..], b, c);
    }
  }

  /** A string without c is left as it is. */
  lemma {:induction false} WithoutAbsent(s: string, c: char)
    requires c !in s
    ensures Without(s, c) == s
  {
    if s != [] {
      assert c !in s[1..];
      WithoutAbsent(s[1..], c);
    }
  }

  /** Normalisation removes every '<' and '>' and keeps every other character. */
  lemma NormalizeRemovesBrackets(name: string)
    ensures '<' !in Normalize(name) && '>' !in Normalize(name)
    ensures forall d :: d != '<' && d != '>' ==> (d in Normalize(name) <==> d in name)
  {
  }

  /** A name without brackets is its own normal form. */
  lemma NormalizeKeepsPlain(name: string)
    requires '<' !in name && '>' !in name
    ensures Normalize(name) == name
  {
    WithoutAbsent(name, '<');
    WithoutAbsent(name, '>');
  }

  /** Normalisation is idempotent. */
  lemma NormalizeIdempotent(name: string)
    ensures Normalize(Normalize(name)) == Normalize(name)
  {
    NormalizeRemovesBrackets(name);
    NormalizeKeepsPlain(Normalize(name));
  }

  /** A decorated name such as '<shift>' loses exactly its brackets. */
  lemma NormalizeDecorated(name: string)
    requires '<' !in name && '>' !in name
    ensures Normalize("<" + name + ">") == name
  {
    var tail := name + ['>'];
    assert "<" + name + ">" == ['<'] + tail;
    assert '<' !in tail;
    WithoutConcat(['<'], tail, '<');
    WithoutAbsent(tail, '<');
    assert Without(['<'], '<') == [];
    assert Without("<" + name + ">", '<') == tail;
    WithoutConcat(name, ['>'], '>');
    WithoutAbsent(name, '>');
    assert Without(['>'], '>') == [];
    assert Without(tail, '>') == name;
  }

  /**
   * The filter of the keydown handler: the name of a key that reaches
   * addLetter, or None when the handler returns early.
   */
  function Accept(lookup: Option<string>, positions: map<string, real>): Option<string> {
    match lookup
    case None => None
    case Some(name) =>
      var key := Normalize(name);
      if key in positions then Some(key) else None
  }

  /**
   * A key reaches addLetter exactly when its name exists and its normal
   * form has a position; what reaches it is that normal form, which holds
   * no bracket.
   */
  lemma AcceptIff(lookup: Option<string>, positions: map<string, real>)
    ensures Accept(lookup, positions).Some? <==> lookup.Some? && Normalize(lookup.value) in positions
    ensures Accept(lookup, positions).Some? ==>
              Accept(lookup, positions).value == Normalize(lookup.value) &&
              '<' !in Accept(lookup, positions).value && '>' !in Accept(lookup, positions).value
  {
    if lookup.Some? {
      NormalizeRemovesBrackets(lookup.value);
    }
  }
}
