/** User codes of the device flow: generation and normalisation. */
module UserCodes {

  /** No vowels and no look-alike characters (section 6.1 of RFC 8628). */
  const ALPHABET: string := "BCDFGHJKLMNPQRSTVWXZ"

  predicate IsUpperLetter(c: char) {
    'A' <= c <= 'Z'
  }

  predicate IsLowerLetter(c: char) {
    'a' <= c <= 'z'
  }

  function ToUpper(c: char): char
    requires IsLowerLetter(c)
  {
    (c as int - 'a' as int + 'A' as int) as char
  }

  /** The ASCII letters of a text, in capitals: what the user meant to type. */
  function Letters(text: string): string {
    if text == "" then ""
    else
      var front := Letters(text[..|text| - 1]);
      var c := text[|text| - 1];
      if IsLowerLetter(c) then front + [ToUpper(c)]
      else if IsUpperLetter(c) then front + [c]
      else front
  }

  /** Eight letters get their dash back; anything else is left as letters. */
  function WithDash(letters: string): string {
    if |letters| == 8 then letters[..4] + "-" + letters[4..] else letters
  }

  /** Capitalises the letters, drops everything else and restores the dash. */
  method NormalizeUserCode(code: string) returns (normal: string)
    ensures normal == WithDash(Letters(code))
  {
    var b: string := "";
    for i := 0 to |code|
      invariant b == Letters(code[..i])
    {
      var r := code[i];
      assert code[..i + 1][..i] == code[..i];
      if IsLowerLetter(r) {
        b := b + [ToUpper(r)];
      } else if IsUpperLetter(r) {
        b := b + [r];
      }
    }
    assert code[..|code|] == code;
    if |b| == 8 {
      return b[..4] + "-" + b[4..];
    }
    return b;
  }

  function Normalize(text: string): string {
    WithDash(Letters(text))
  }

  /** The form of an issued code: XXXX-XXXX over the alphabet. */
  predicate IsUserCode(code: string) {
    |code| == 9 && code[4] == '-' && forall i | 0 <= i < 9 && i != 4 :: code[i] in ALPHABET
  }

  /** The code eight random bytes stand for. */
  function CodeOf(bytes: seq<nat>): (code: string)
    requires |bytes| == 8
    ensures IsUserCode(code)
  {
    seq(9, i requires 0 <= i < 9 =>
          if i < 4 then ALPHABET[bytes[i] % 20]
          else if i == 4 then '-'
          else ALPHABET[bytes[i - 1] % 20])
  }

  /** Spells out eight random bytes, with a dash in the middle. */
  method SpellCode(b: seq<nat>) returns (code: string)
    requires |b| == 8
    ensures code == CodeOf(b)
  {
    code := "";
    for i := 0 to 8
      invariant |code| == if i <= 4 then i else i + 1
      invariant forall k | 0 <= k < |code| :: code[k] == CodeOf(b)[k]
    {
      if i == 4 {
        code := code + "-";
      }
      code := code + [ALPHABET[b[i] % |ALPHABET|]];
    }
  }

  /** Draws codes until one is not taken. `draws` is what the random source yields;
      the loop ends because some draw is free. */
  method NewUserCode(taken: set<string>, draws: seq<seq<nat>>) returns (code: string)
    requires forall b <- draws :: |b| == 8
    requires exists k | 0 <= k < |draws| :: CodeOf(draws[k]) !in taken
    ensures code !in taken && IsUserCode(code)
    ensures exists k | 0 <= k < |draws| :: code == CodeOf(draws[k]) && forall j | 0 <= j < k :: CodeOf(draws[j]) in taken
  {
    hide CodeOf, IsUserCode;
    var k := 0;
    while true
      invariant 0 <= k <= |draws|
      invariant forall j | 0 <= j < k :: CodeOf(draws[j]) in taken
      decreases |draws| - k
    {
      code := SpellCode(draws[k]);
      if code !in taken {
        return;
      }
      k := k + 1;
    }
  }

  lemma {:induction false} LettersAppend(a: string, b: string)
    ensures Letters(a + b) == Letters(a) + Letters(b)
  {
    if b == "" {
      assert a + b == a;
    } else {
      LettersAppend(a, b[..|b| - 1]);
      assert (a + b)[..|a + b| - 1] == a + b[..|b| - 1];
    }
  }

  lemma {:induction false} LettersAreUpper(text: string)
    ensures forall c <- Letters(text) :: IsUpperLetter(c)
  {
    if text != "" {
      LettersAreUpper(text[..|text| - 1]);
    }
  }

  lemma {:induction false} LettersOfUpper(text: string)
    requires forall c <- text :: IsUpperLetter(c)
    ensures Letters(text) == text
  {
    if text != "" {
      LettersOfUpper(text[..|text| - 1]);
      assert text == text[..|text| - 1] + [text[|text| - 1]];
    }
  }

  lemma LettersOfDashed(letters: string)
    requires forall c <- letters :: IsUpperLetter(c)
    ensures Letters(WithDash(letters)) == letters
  {
    if |letters| == 8 {
      var a, b := letters[..4], letters[4..];
      LettersOfUpper(a);
      LettersOfUpper(b);
      LettersAppend(a, "-");
      LettersAppend(a + "-", b);
      assert Letters("-") == "" by {
        assert "-"[..0] == "";
      }
      assert a + b == letters;
    } else {
      LettersOfUpper(letters);
    }
  }

  /** Normalising twice is normalising once. */
  lemma NormalizeIdempotent(text: string)
    ensures Normalize(Normalize(text)) == Normalize(text)
  {
    LettersAreUpper(text);
    LettersOfDashed(Letters(text));
  }

  /** A text normalises to an issued code exactly when its letters, in any case and
      with any other characters between them, spell that code. */
  lemma NormalizeFindsCode(text: string, code: string)
    requires IsUserCode(code)
    ensures Normalize(text) == code <==> Letters(text) == Letters(code)
    ensures Normalize(code) == code
  {
    var spelled := code[..4] + code[5..];
    forall c | c in spelled ensures IsUpperLetter(c) {
      assert c in ALPHABET;
    }
    assert WithDash(spelled) == code;
    LettersOfDashed(spelled);
    LettersAreUpper(text);
    LettersOfDashed(Letters(text));
  }

  // ---- Spelling a code ----

  predicate AsciiLetter(c: char) {
    'A' <= c <= 'Z' || 'a' <= c <= 'z'
  }

  /** text types the capitals w in order, each as itself or as the small letter 32 code
      points above it, with anything but letters around them. */
  predicate Spells(text: string, w: string) {
    if text == "" then w == ""
    else if !AsciiLetter(text[0]) then Spells(text[1..], w)
    else w != "" && (text[0] == w[0] || text[0] as int == w[0] as int + 32) && Spells(text[1..], w[1..])
  }

  lemma LettersOfOne(c: char)
    ensures Letters([c]) == if IsLowerLetter(c) then [ToUpper(c)] else if IsUpperLetter(c) then [c] else ""
  {
    assert [c][..0] == "";
  }

  lemma {:induction false} SpellsExact(text: string, w: string)
    requires forall i | 0 <= i < |w| :: 'A' <= w[i] <= 'Z'
    ensures Spells(text, w) <==> Letters(text) == w
  {
    if text != "" {
      var c, rest := text[0], text[1..];
      assert text == [c] + rest;
      LettersAppend([c], rest);
      LettersOfOne(c);
      if !AsciiLetter(c) {
        SpellsExact(rest, w);
      } else if w != "" {
        SpellsExact(rest, w[1..]);
        assert Letters(text)[1..] == Letters(rest) && w == [w[0]] + w[1..];
      }
    }
  }

  /** The eight letters of an issued code. */
  function Plain(code: string): string
    requires |code| == 9
  {
    code[..4] + code[5..]
  }

  /** Main result: a text normalises to an issued code exactly when it spells it. */
  lemma NormalizeExact(text: string, code: string)
    requires IsUserCode(code)
    ensures Normalize(text) == code <==> Spells(text, Plain(code))
  {
    var w := Plain(code);
    forall i | 0 <= i < |w| ensures 'A' <= w[i] <= 'Z' {
      assert w[i] in ALPHABET;
    }
    SpellsExact(text, w);
    NormalizeFindsCode(text, code);
    SpellsCode(code);
  }

  lemma SpellsCode(code: string)
    requires IsUserCode(code)
    ensures Letters(code) == Plain(code)
  {
    var a, b := code[..4], code[5..];
    assert code == a + "-" + b;
    forall c | c in a + b ensures IsUpperLetter(c) {
      assert c in ALPHABET;
    }
    LettersOfUpper(a);
    LettersOfUpper(b);
    LettersAppend(a, "-");
    LettersAppend(a + "-", b);
    LettersOfOne('-');
  }

  /** The code of eight bytes: byte i picks its letter among twenty consonants. */
  lemma CodeOfExact(bytes: seq<nat>)
    requires |bytes| == 8
    ensures CodeOf(bytes)[4] == '-'
    ensures forall i | 0 <= i < 8 :: Plain(CodeOf(bytes))[i] == "BCDFGHJKLMNPQRSTVWXZ"[bytes[i] % 20]
  {
  }

  function IndexIn(c: char, s: string): (i: nat)
    requires c in s
    ensures i < |s| && s[i] == c
  {
    if s[0] == c then 0 else 1 + IndexIn(c, s[1..])
  }

  /** Every code of that form can be drawn. */
  lemma EveryCodeDrawn(code: string) returns (bytes: seq<nat>)
    requires IsUserCode(code)
    ensures |bytes| == 8 && (forall b <- bytes :: b < 256) && CodeOf(bytes) == code
  {
    hide CodeOf, IndexIn;
    var w := Plain(code);
    assert forall i | 0 <= i < 8 :: w[i] in ALPHABET;
    bytes := seq(8, i requires 0 <= i < 8 => IndexIn(w[i], ALPHABET));
    CodeOfExact(bytes);
    var drawn := CodeOf(bytes);
    forall i | 0 <= i < 8 ensures Plain(drawn)[i] == w[i] {
      assert bytes[i] == IndexIn(w[i], ALPHABET) < 20;
      SameModulo(bytes[i]);
    }
    assert drawn == Plain(drawn)[..4] + "-" + Plain(drawn)[4..];
    assert code == w[..4] + "-" + w[4..];
    assert Plain(drawn) == w;
  }

  lemma SameModulo(n: nat)
    requires n < 20
    ensures n % 20 == n
  {
  }
}
