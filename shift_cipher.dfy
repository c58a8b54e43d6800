/** The toy three-rotor shift cipher of 3_rotor_python_A.py: every letter of
    the upper-cased message is shifted by the three rotor positions (A counts
    1, Z counts 26), added when encrypting and subtracted when decrypting,
    and the rotors then step like an odometer; other characters pass through
    and do not step the rotors. */
module ShiftCipher {

  /** An upper-case letter 'A'..'Z'; rotor positions and cipher output. */
  type Upper = c: char | 'A' <= c <= 'Z' witness 'A'

  datatype Mode = Encrypt | Decrypt

  /** The positions of rotors 1, 2 and 3. */
  datatype Rotors = Rotors(r1: Upper, r2: Upper, r3: Upper)

  /** The alphabet index of a letter, A = 0. */
  function Index(c: Upper): int {
    c as int - 'A' as int
  }

  // ---------------------------------------------------------------------------
  // Characters

  /** str.isalpha, restricted to ASCII. */
  predicate IsAlpha(c: char) {
    'A' <= c <= 'Z' || 'a' <= c <= 'z'
  }

  /** str.upper on one character, restricted to ASCII. */
  function UpperChar(c: char): (d: char)
    ensures IsAlpha(c) <==> IsAlpha(d)
    ensures IsAlpha(d) ==> 'A' <= d <= 'Z'
    ensures 'A' <= c <= 'Z' || !IsAlpha(c) ==> d == c
    ensures 'a' <= c <= 'z' ==> d as int - 'A' as int == c as int - 'a' as int
  {
    if 'a' <= c <= 'z' then (c as int - 'a' as int + 'A' as int) as char else c
  }

  /** message.upper(), restricted to ASCII. */
  function ToUpper(s: string): (r: string)
    ensures |r| == |s|
    ensures forall i :: 0 <= i < |s| ==> r[i] == UpperChar(s[i])
  {
    seq(|s|, i requires 0 <= i < |s| => UpperChar(s[i]))
  }

  /** No lower-case letter: every letter of s is already upper case. */
  predicate NoLowerCase(s: string) {
    forall i :: 0 <= i < |s| ==> IsAlpha(s[i]) ==> 'A' <= s[i] <= 'Z'
  }

  lemma ToUpperHasNoLowerCase(s: string)
    ensures NoLowerCase(ToUpper(s))
  {
  }

  /** Upper-casing a string without lower-case letters changes nothing. */
  lemma ToUpperIdentity(s: string)
    requires NoLowerCase(s)
    ensures ToUpper(s) == s
  {
    assert forall i :: 0 <= i < |s| ==> ToUpper(s)[i] == s[i];
  }

  // ---------------------------------------------------------------------------
  // One character through the three rotors

  /** The shift of a rotor at position r: A = 1, ..., Z = 26. */
  function Shift(r: Upper): (s: int)
    ensures 1 <= s <= 26 && s == Index(r) + 1
  {
    r as int - 65 + 1
  }

  /** One rotor pass, chr((ord(c) - 65 + s) % 26 + 65); Python's % with a
      positive divisor never returns a negative value, like Dafny's. */
  function Rotate(c: char, s: int): Upper {
    ((c as int - 65 + s) % 26 + 65) as char
  }

  /** Two passes in a row are one pass by the sum of the shifts. */
  lemma RotateRotate(c: char, s: int, u: int)
    ensures Rotate(Rotate(c, s), u) == Rotate(c, s + u)
  {
    var x := c as int - 65;
    assert Rotate(c, s) as int - 65 == (x + s) % 26;
    ModAddLeft(x + s, u);
  }

  /** ((a % 26) + u) % 26 == (a + u) % 26 */
  lemma ModAddLeft(a: int, u: int)
    ensures (a % 26 + u) % 26 == (a + u) % 26
  {
    var q := a / 26;
    assert a == 26 * q + a % 26;
    assert a + u == (a % 26 + u) + 26 * q;
  }

  /** A pass by zero leaves a letter alone. */
  lemma RotateZero(c: Upper)
    ensures Rotate(c, 0) == c
  {
  }

  /** Rotors 1, 2, 3 in that order, adding their shifts (lines 45-47). */
  function EncryptChar(c: char, p: Rotors): Upper {
    Rotate(Rotate(Rotate(c, Shift(p.r1)), Shift(p.r2)), Shift(p.r3))
  }

  /** Rotors 3, 2, 1 in that order, subtracting their shifts (lines 52-54). */
  function DecryptChar(c: char, p: Rotors): Upper {
    Rotate(Rotate(Rotate(c, -Shift(p.r3)), -Shift(p.r2)), -Shift(p.r1))
  }

  function Cipher(c: char, mode: Mode, p: Rotors): Upper {
    match mode
    case Encrypt => EncryptChar(c, p)
    case Decrypt => DecryptChar(c, p)
  }

  /** Encryption is one shift by (r1 + 1) + (r2 + 1) + (r3 + 1). */
  lemma EncryptCharShift(c: Upper, p: Rotors)
    ensures Index(EncryptChar(c, p)) == (Index(c) + Index(p.r1) + Index(p.r2) + Index(p.r3) + 3) % 26
  {
    RotateRotate(c, Shift(p.r1), Shift(p.r2));
    RotateRotate(c, Shift(p.r1) + Shift(p.r2), Shift(p.r3));
  }

  /** Decryption is one shift back by the same amount. */
  lemma DecryptCharShift(c: Upper, p: Rotors)
    ensures Index(DecryptChar(c, p)) == (Index(c) - Index(p.r1) - Index(p.r2) - Index(p.r3) - 3) % 26
  {
    RotateRotate(c, -Shift(p.r3), -Shift(p.r2));
    RotateRotate(c, -Shift(p.r3) - Shift(p.r2), -Shift(p.r1));
  }

  /** Decrypting at the same positions undoes encrypting. */
  lemma DecryptEncrypt(c: Upper, p: Rotors)
    ensures DecryptChar(EncryptChar(c, p), p) == c
  {
    var total := Shift(p.r1) + Shift(p.r2) + Shift(p.r3);
    RotateRotate(c, Shift(p.r1), Shift(p.r2));
    RotateRotate(c, Shift(p.r1) + Shift(p.r2), Shift(p.r3));
    var e := EncryptChar(c, p);
    assert e == Rotate(c, total);
    RotateRotate(e, -Shift(p.r3), -Shift(p.r2));
    RotateRotate(e, -Shift(p.r3) - Shift(p.r2), -Shift(p.r1));
    assert DecryptChar(e, p) == Rotate(e, -total);
    RotateRotate(c, total, -total);
    RotateZero(c);
  }

  /** Encrypting at the same positions undoes decrypting. */
  lemma EncryptDecrypt(c: Upper, p: Rotors)
    ensures EncryptChar(DecryptChar(c, p), p) == c
  {
    var total := Shift(p.r1) + Shift(p.r2) + Shift(p.r3);
    RotateRotate(c, -Shift(p.r3), -Shift(p.r2));
    RotateRotate(c, -Shift(p.r3) - Shift(p.r2), -Shift(p.r1));
    var d := DecryptChar(c, p);
    assert d == Rotate(c, -total);
    RotateRotate(d, Shift(p.r1), Shift(p.r2));
    RotateRotate(d, Shift(p.r1) + Shift(p.r2), Shift(p.r3));
    assert EncryptChar(d, p) == Rotate(d, total);
    RotateRotate(c, -total, total);
    RotateZero(c);
  }

  // ---------------------------------------------------------------------------
  // Stepping

  /** The odometer step after each letter (lines 61-74): rotor 1 always
      moves, rotor 2 moves when rotor 1 wraps from Z to A, rotor 3 when both
      wrap. */
  function Advance(p: Rotors): (q: Rotors)
    ensures Index(q.r1) == (Index(p.r1) + 1) % 26
    ensures q.r2 != p.r2 <==> p.r1 == 'Z'
    ensures Index(q.r2) == if p.r1 == 'Z' then (Index(p.r2) + 1) % 26 else Index(p.r2)
    ensures q.r3 != p.r3 <==> p.r1 == 'Z' && p.r2 == 'Z'
    ensures Index(q.r3) == if p.r1 == 'Z' && p.r2 == 'Z' then (Index(p.r3) + 1) % 26 else Index(p.r3)
  {
    if p.r1 == 'Z' then
      if p.r2 == 'Z' then
        if p.r3 == 'Z' then Rotors('A', 'A', 'A')
        else Rotors('A', 'A', (p.r3 as int + 1) as char)
      else Rotors('A', (p.r2 as int + 1) as char, p.r3)
    else Rotors((p.r1 as int + 1) as char, p.r2, p.r3)
  }

  /** The positions read as a three-digit base-26 number, rotor 1 lowest. */
  function Value(p: Rotors): (v: int)
    ensures 0 <= v < 17576
  {
    Index(p.r1) + 26 * Index(p.r2) + 676 * Index(p.r3)
  }

  /** A step adds one to that number, modulo 26^3. */
  lemma AdvanceCounts(p: Rotors)
    ensures Value(Advance(p)) == (Value(p) + 1) % 17576
  {
  }

  /** The positions after n letters. */
  function AdvanceN(p: Rotors, n: nat): Rotors {
    if n == 0 then p else Advance(AdvanceN(p, n - 1))
  }

  lemma {:induction false} AdvanceNCounts(p: Rotors, n: nat)
    ensures Value(AdvanceN(p, n)) == (Value(p) + n) % 17576
  {
    if n > 0 {
      var q := AdvanceN(p, n - 1);
      AdvanceNCounts(p, n - 1);
      AdvanceCounts(q);
      ModAddOne(Value(p) + n - 1, Value(q));
    }
  }

  lemma ModAddOne(a: int, b: int)
    requires b == a % 17576
    ensures (b + 1) % 17576 == (a + 1) % 17576
  {
    var q := a / 17576;
    assert a == 17576 * q + a % 17576;
    assert a + 1 == (a % 17576 + 1) + 17576 * q;
  }

  // ---------------------------------------------------------------------------
  // Messages

  /** The number of letters in s. */
  function LetterCount(s: string): (n: nat)
    ensures n <= |s|
  {
    if s == [] then 0 else LetterCount(s[..|s| - 1]) + (if IsAlpha(s[|s| - 1]) then 1 else 0)
  }

  /** The per-character loop of on_button_click on an already upper-cased
      message: a letter is enciphered at the current positions, which then
      step; any other character is copied and the positions stay. */
  function Transform(s: string, mode: Mode, p: Rotors): (r: string)
    ensures |r| == |s|
  {
    if s == [] then []
    else if IsAlpha(s[0]) then [Cipher(s[0], mode, p)] + Transform(s[1..], mode, Advance(p))
    else [s[0]] + Transform(s[1..], mode, p)
  }

  /** LetterCount of a string split after its first character. */
  lemma {:induction false} LetterCountCons(s: string)
    requires s != []
    ensures LetterCount(s) == (if IsAlpha(s[0]) then 1 else 0) + LetterCount(s[1..])
    decreases |s|
  {
    if |s| > 1 {
      var front := s[..|s| - 1];
      LetterCountCons(front);
      assert front[1..] == s[1..][..|s[1..]| - 1];
      assert front[0] == s[0];
    } else {
      assert s[1..] == [];
      assert s[..|s| - 1] == [];
    }
  }

  lemma {:induction false} AdvanceNAfter(p: Rotors, n: nat)
    ensures AdvanceN(Advance(p), n) == AdvanceN(p, n + 1)
  {
    if n > 0 {
      AdvanceNAfter(p, n - 1);
    }
  }

  /** Character i of the output: a letter is enciphered at the positions
      reached after the letters before it, whatever the mode and whatever
      those letters were; any other character is copied. */
  lemma {:induction false} TransformAt(s: string, mode: Mode, p: Rotors, i: int)
    requires 0 <= i < |s|
    ensures Transform(s, mode, p)[i] ==
      if IsAlpha(s[i]) then Cipher(s[i], mode, AdvanceN(p, LetterCount(s[..i]))) else s[i]
    decreases i
  {
    if i > 0 {
      var q := if IsAlpha(s[0]) then Advance(p) else p;
      TransformTail(s, mode, p, i);
      TransformAt(s[1..], mode, q, i - 1);
      PositionsAfterFirst(s, p, i);
    }
  }

  /** Past the first character, the output is the rest of the message
      transformed from the positions after that character. */
  lemma TransformTail(s: string, mode: Mode, p: Rotors, i: int)
    requires 0 < i < |s|
    ensures Transform(s, mode, p)[i] ==
      Transform(s[1..], mode, if IsAlpha(s[0]) then Advance(p) else p)[i - 1]
  {
  }

  /** The positions reached before character i, counted from the positions
      after the first character. */
  lemma PositionsAfterFirst(s: string, p: Rotors, i: int)
    requires 0 < i < |s|
    ensures AdvanceN(if IsAlpha(s[0]) then Advance(p) else p, LetterCount(s[1..][..i - 1]))
         == AdvanceN(p, LetterCount(s[..i]))
  {
    assert s[1..][..i - 1] == s[..i][1..];
    LetterCountCons(s[..i]);
    if IsAlpha(s[0]) {
      AdvanceNAfter(p, LetterCount(s[..i][1..]));
    }
  }

  /** A character other than a letter is copied unchanged. */
  lemma TransformKeepsOthers(s: string, mode: Mode, p: Rotors, i: int)
    requires 0 <= i < |s| && !IsAlpha(s[i])
    ensures Transform(s, mode, p)[i] == s[i]
  {
    TransformAt(s, mode, p, i);
  }

  /** Every letter of the output is upper case and letters stay letters. */
  lemma {:induction false} TransformLetters(s: string, mode: Mode, p: Rotors)
    ensures forall i :: 0 <= i < |s| ==> (IsAlpha(s[i]) <==> IsAlpha(Transform(s, mode, p)[i]))
    ensures NoLowerCase(Transform(s, mode, p))
  {
    forall i | 0 <= i < |s|
      ensures IsAlpha(s[i]) <==> IsAlpha(Transform(s, mode, p)[i])
      ensures IsAlpha(Transform(s, mode, p)[i]) ==> 'A' <= Transform(s, mode, p)[i] <= 'Z'
    {
      TransformAt(s, mode, p, i);
    }
  }

  /** Decrypting the encryption of a message without lower-case letters from
      the same positions gives the message back, and so does encrypting its
      decryption. */
  lemma {:induction false} RoundTrip(s: string, p: Rotors)
    requires NoLowerCase(s)
    ensures Transform(Transform(s, Encrypt, p), Decrypt, p) == s
    ensures Transform(Transform(s, Decrypt, p), Encrypt, p) == s
    decreases |s|
  {
    if s != [] {
      var e := Transform(s, Encrypt, p);
      var d := Transform(s, Decrypt, p);
      assert NoLowerCase(s[1..]) by {
        assert forall i :: 0 <= i < |s[1..]| ==> s[1..][i] == s[i + 1];
      }
      if IsAlpha(s[0]) {
        var c: Upper := s[0];
        RoundTrip(s[1..], Advance(p));
        DecryptEncrypt(c, p);
        EncryptDecrypt(c, p);
        assert e[1..] == Transform(s[1..], Encrypt, Advance(p));
        assert d[1..] == Transform(s[1..], Decrypt, Advance(p));
      } else {
        RoundTrip(s[1..], p);
        assert e[1..] == Transform(s[1..], Encrypt, p);
        assert d[1..] == Transform(s[1..], Decrypt, p);
      }
    }
  }

  /** The whole program: decrypting the output of encrypting a message,
      from the same starting positions, gives back the upper-cased message. */
  lemma MessageRoundTrip(message: string, p: Rotors)
    ensures Transform(ToUpper(Transform(ToUpper(message), Encrypt, p)), Decrypt, p) == ToUpper(message)
  {
    var m := ToUpper(message);
    ToUpperHasNoLowerCase(message);
    TransformLetters(m, Encrypt, p);
    ToUpperIdentity(Transform(m, Encrypt, p));
    RoundTrip(m, p);
  }

  /** One more character of the message processed, in the shape of the
      loop below. */
  lemma TransformFrom(m: string, i: int, mode: Mode, p: Rotors, done: string)
    requires 0 <= i < |m|
    ensures IsAlpha(m[i]) ==>
      (done + [Cipher(m[i], mode, p)]) + Transform(m[i + 1..], mode, Advance(p)) == done + Transform(m[i..], mode, p)
    ensures !IsAlpha(m[i]) ==>
      (done + [m[i]]) + Transform(m[i + 1..], mode, p) == done + Transform(m[i..], mode, p)
  {
    assert m[i..][1..] == m[i + 1..];
  }

  /** The stepping code of the loop: the nested ifs that move rotor 1, and
      rotor 2 and rotor 3 on a wrap from Z to A. */
  method StepRotors(r1: Upper, r2: Upper, r3: Upper) returns (pos1: Upper, pos2: Upper, pos3: Upper)
    ensures Rotors(pos1, pos2, pos3) == Advance(Rotors(r1, r2, r3))
  {
    pos1, pos2, pos3 := r1, r2, r3;
    if pos1 == 'Z' {
      pos1 := 'A';
      if pos2 == 'Z' {
        pos2 := 'A';
        if pos3 == 'Z' {
          pos3 := 'A';
        } else {
          pos3 := (pos3 as int + 1) as char;
        }
      } else {
        pos2 := (pos2 as int + 1) as char;
      }
    } else {
      pos1 := (pos1 as int + 1) as char;
    }
  }

  /** on_button_click without the widgets: upper-case the message, then
      process it one character at a time, stepping r1, r2, r3 after every
      letter. */
  method RunCipher(message: string, mode: Mode, r1: Upper, r2: Upper, r3: Upper) returns (output: string)
    ensures output == Transform(ToUpper(message), mode, Rotors(r1, r2, r3))
  {
    var m := ToUpper(message);
    var pos1: Upper, pos2: Upper, pos3: Upper := r1, r2, r3;
    var resultChars: string := [];
    for i := 0 to |m|
      invariant resultChars + Transform(m[i..], mode, Rotors(pos1, pos2, pos3)) ==
        Transform(m, mode, Rotors(r1, r2, r3))
    {
      var ch := m[i];
      ghost var p, done := Rotors(pos1, pos2, pos3), resultChars;
      TransformFrom(m, i, mode, p, done);
      if !IsAlpha(ch) {
        resultChars := resultChars + [ch];
        continue;
      }
      var shift1, shift2, shift3 := Shift(pos1), Shift(pos2), Shift(pos3);
      var outChar: Upper;
      if mode == Encrypt {
        var mid1 := Rotate(ch, shift1);
        var mid2 := Rotate(mid1, shift2);
        outChar := Rotate(mid2, shift3);
      } else {
        var mid3 := Rotate(ch, -shift3);
        var mid2 := Rotate(mid3, -shift2);
        outChar := Rotate(mid2, -shift1);
      }
      assert outChar == Cipher(ch, mode, p);
      resultChars := resultChars + [outChar];
      pos1, pos2, pos3 := StepRotors(pos1, pos2, pos3);
    }
    assert m[|m|..] == [];
    output := resultChars;
  }
}
