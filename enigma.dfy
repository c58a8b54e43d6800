/** The rotor engine of CycloMeter.py: three rotors from the catalogue I, II,
    III, an identity plugboard and a reflector (A or B).  Positions are values
    that every operation takes and returns; nothing is kept between calls. */
module Enigma {

  /** An alphabet index: 0 is 'A', 25 is 'Z'. */
  type Letter = x: int | 0 <= x < 26

  predicate IsUpper(c: char) {
    'A' <= c <= 'Z'
  }

  /** The source's char_to_index */
  function Code(c: char): Letter
    requires IsUpper(c)
  {
    c as int - 'A' as int
  }

  /** The source's index_to_char */
  function Char(x: Letter): (c: char)
    ensures IsUpper(c) && Code(c) == x
  {
    (x + 'A' as int) as char
  }

  /** Every letter index is one of the 26 literals; lets the solver check a
      fixed table entry by entry. */
  lemma LetterCases(x: Letter)
    ensures x < 7 ==> x == 0 || x == 1 || x == 2 || x == 3 || x == 4 || x == 5 || x == 6
    ensures 7 <= x < 13 ==> x == 7 || x == 8 || x == 9 || x == 10 || x == 11 || x == 12
    ensures 13 <= x ==> x == 13 || x == 14 || x == 15 || x == 16 || x == 17 || x == 18 ||
                        x == 19 || x == 20 || x == 21 || x == 22 || x == 23 || x == 24 || x == 25
  {
  }

  // ---------------------------------------------------------------------------
  // Rotors

  datatype RotorId = I | II | III

  /** (left, middle, right) */
  datatype RotorOrder = RotorOrder(left: RotorId, mid: RotorId, right: RotorId)

  /** Positions of the (left, middle, right) rotors. */
  datatype Positions = Positions(left: Letter, mid: Letter, right: Letter)

  /** A rotor: its wiring string, the inverse of that permutation as a table
      of indices, and its notch letter. */
  datatype Rotor = Rotor(wiring: string, inverse: seq<Letter>, notch: char)

  /** Position x of wiring string t holds a letter, inv undoes t at x, and t
      undoes inv at x. */
  predicate InvertsAt(t: string, inv: seq<Letter>, x: Letter) {
    |t| == 26 && |inv| == 26 && IsUpper(t[x]) && inv[Code(t[x])] == x &&
    IsUpper(t[inv[x]]) && Code(t[inv[x]]) == x
  }

  /** The wiring is a permutation of A-Z, inverse is its inverse, and the notch
      is a letter. */
  predicate ValidRotor(rt: Rotor) {
    |rt.wiring| == 26 && |rt.inverse| == 26 && IsUpper(rt.notch) &&
    forall x: Letter :: InvertsAt(rt.wiring, rt.inverse, x)
  }

  const WiringI: string := "EKMFLGDQVZNTOWYHXUSPAIBRCJ"
  const WiringII: string := "AJDKSIRUXBLHWTMCQGZNPYFVOE"
  const WiringIII: string := "BDFHJLCPRTXVZNYEIWGAKMUSQO"

  /** Inverse permutations of the three wiring strings, computed once so that
      the reverse pass is a lookup and not a search of the wiring string. */
  const InverseI: seq<Letter> :=
    [20, 22, 24, 6, 0, 3, 5, 15, 21, 25, 1, 4, 2, 10, 12, 19, 7, 23, 18, 11, 17, 8, 13, 16, 14, 9]
  const InverseII: seq<Letter> :=
    [0, 9, 15, 2, 25, 22, 17, 11, 5, 1, 3, 10, 14, 19, 24, 20, 16, 6, 4, 13, 7, 23, 12, 8, 21, 18]
  const InverseIII: seq<Letter> :=
    [19, 0, 6, 1, 15, 2, 18, 3, 16, 4, 20, 5, 21, 13, 25, 7, 24, 8, 23, 9, 22, 11, 17, 10, 14, 12]

  lemma WiringIPermutation(x: Letter)
    ensures InvertsAt(WiringI, InverseI, x)
  {
    LetterCases(x);
  }

  lemma WiringIIPermutation(x: Letter)
    ensures InvertsAt(WiringII, InverseII, x)
  {
    LetterCases(x);
  }

  lemma WiringIIIPermutation(x: Letter)
    ensures InvertsAt(WiringIII, InverseIII, x)
  {
    LetterCases(x);
  }

  /** The rotor catalogue; every rotor in it is valid. */
  function RotorSpec(id: RotorId): (rt: Rotor)
    ensures ValidRotor(rt)
  {
    match id
    case I =>
      assert forall x: Letter :: InvertsAt(WiringI, InverseI, x) by {
        forall x: Letter { WiringIPermutation(x); }
      }
      Rotor(WiringI, InverseI, 'Q')
    case II =>
      assert forall x: Letter :: InvertsAt(WiringII, InverseII, x) by {
        forall x: Letter { WiringIIPermutation(x); }
      }
      Rotor(WiringII, InverseII, 'E')
    case III =>
      assert forall x: Letter :: InvertsAt(WiringIII, InverseIII, x) by {
        forall x: Letter { WiringIIIPermutation(x); }
      }
      Rotor(WiringIII, InverseIII, 'V')
  }

  /** Contact x of the rotor, as an index. */
  function Wire(rt: Rotor, x: Letter): Letter
    requires ValidRotor(rt)
  {
    assert InvertsAt(rt.wiring, rt.inverse, x);
    Code(rt.wiring[x])
  }

  function Unwire(rt: Rotor, y: Letter): Letter
    requires ValidRotor(rt)
  {
    rt.inverse[y]
  }

  lemma UnwireWire(rt: Rotor, x: Letter)
    requires ValidRotor(rt)
    ensures Unwire(rt, Wire(rt, x)) == x && Wire(rt, Unwire(rt, x)) == x
  {
    assert InvertsAt(rt.wiring, rt.inverse, x);
  }

  /** The signal through a rotor at the given offset, right to left. */
  function Forward(rt: Rotor, x: Letter, offset: Letter): Letter
    requires ValidRotor(rt)
  {
    (Wire(rt, (x + offset) % 26) - offset) % 26
  }

  /** The signal through a rotor at the given offset, left to right. */
  function Backward(rt: Rotor, x: Letter, offset: Letter): Letter
    requires ValidRotor(rt)
  {
    (Unwire(rt, (x + offset) % 26) - offset) % 26
  }

  lemma ShiftBack(a: Letter, offset: Letter)
    ensures (((a - offset) % 26) + offset) % 26 == a
  {
  }

  lemma ShiftForth(a: Letter, offset: Letter)
    ensures (((a + offset) % 26) - offset) % 26 == a
  {
  }

  lemma BackwardForward(rt: Rotor, x: Letter, offset: Letter)
    requires ValidRotor(rt)
    ensures Backward(rt, Forward(rt, x, offset), offset) == x
  {
    var k: Letter := (x + offset) % 26;
    var w := Wire(rt, k);
    var y: Letter := (w - offset) % 26;
    assert Forward(rt, x, offset) == y;
    ShiftBack(w, offset);
    UnwireWire(rt, k);
    assert Unwire(rt, (y + offset) % 26) == k;
    ShiftForth(x, offset);
  }

  lemma ForwardBackward(rt: Rotor, x: Letter, offset: Letter)
    requires ValidRotor(rt)
    ensures Forward(rt, Backward(rt, x, offset), offset) == x
  {
    var k: Letter := (x + offset) % 26;
    var u := Unwire(rt, k);
    var y: Letter := (u - offset) % 26;
    assert Backward(rt, x, offset) == y;
    ShiftBack(u, offset);
    UnwireWire(rt, k);
    assert Wire(rt, (y + offset) % 26) == k;
    ShiftForth(x, offset);
  }

  // ---------------------------------------------------------------------------
  // Reflectors

  datatype ReflectorId = A | B

  const ReflectorA: map<char, char> := map[
    'A' := 'E', 'E' := 'A', 'B' := 'J', 'J' := 'B', 'C' := 'M', 'M' := 'C', 'D' := 'Z', 'Z' := 'D',
    'F' := 'L', 'L' := 'F', 'G' := 'Y', 'Y' := 'G', 'H' := 'X', 'X' := 'H', 'I' := 'V', 'V' := 'I',
    'K' := 'W', 'W' := 'K', 'N' := 'O', 'O' := 'N', 'P' := 'Q', 'Q' := 'P', 'R' := 'U', 'U' := 'R',
    'S' := 'T', 'T' := 'S']

  const ReflectorB: map<char, char> := map[
    'A' := 'Y', 'Y' := 'A', 'B' := 'R', 'R' := 'B', 'C' := 'U', 'U' := 'C', 'D' := 'H', 'H' := 'D',
    'E' := 'Q', 'Q' := 'E', 'F' := 'S', 'S' := 'F', 'G' := 'L', 'L' := 'G', 'I' := 'P', 'P' := 'I',
    'J' := 'X', 'X' := 'J', 'K' := 'N', 'N' := 'K', 'M' := 'O', 'O' := 'M', 'T' := 'Z', 'Z' := 'T',
    'V' := 'W', 'W' := 'V']

  /** The table pairs letter c with a different letter, which it pairs back with c. */
  predicate PairsLetter(t: map<char, char>, c: char) {
    c in t && IsUpper(t[c]) && t[c] != c && t[c] in t && t[t[c]] == c
  }

  /** Defined on exactly the upper-case letters, self-inverse, no fixed point. */
  predicate ValidReflector(t: map<char, char>) {
    (forall c :: c in t ==> IsUpper(c)) &&
    forall x: Letter :: PairsLetter(t, Char(x))
  }

  lemma ReflectorAPairsFirst(x: Letter)
    requires x < 7
    ensures PairsLetter(ReflectorA, Char(x))
  {
    LetterCases(x);
  }

  lemma ReflectorAPairsSecond(x: Letter)
    requires 7 <= x < 13
    ensures PairsLetter(ReflectorA, Char(x))
  {
    LetterCases(x);
  }

  lemma ReflectorAPairsHigh(x: Letter)
    requires 13 <= x
    ensures PairsLetter(ReflectorA, Char(x))
  {
    LetterCases(x);
  }

  lemma ReflectorAPairs(x: Letter)
    ensures PairsLetter(ReflectorA, Char(x))
  {
    if x < 7 {
      ReflectorAPairsFirst(x);
    } else if x < 13 {
      ReflectorAPairsSecond(x);
    } else {
      ReflectorAPairsHigh(x);
    }
  }

  lemma ReflectorAKeys(c: char)
    ensures c in ReflectorA ==> IsUpper(c)
  {
  }

  lemma ReflectorBPairsFirst(x: Letter)
    requires x < 7
    ensures PairsLetter(ReflectorB, Char(x))
  {
    LetterCases(x);
  }

  lemma ReflectorBPairsSecond(x: Letter)
    requires 7 <= x < 13
    ensures PairsLetter(ReflectorB, Char(x))
  {
    LetterCases(x);
  }

  lemma ReflectorBPairsHigh(x: Letter)
    requires 13 <= x
    ensures PairsLetter(ReflectorB, Char(x))
  {
    LetterCases(x);
  }

  lemma ReflectorBPairs(x: Letter)
    ensures PairsLetter(ReflectorB, Char(x))
  {
    if x < 7 {
      ReflectorBPairsFirst(x);
    } else if x < 13 {
      ReflectorBPairsSecond(x);
    } else {
      ReflectorBPairsHigh(x);
    }
  }

  lemma ReflectorBKeys(c: char)
    ensures c in ReflectorB ==> IsUpper(c)
  {
  }

  /** The two reflector tables; both are valid. */
  function ReflectorTable(id: ReflectorId): (t: map<char, char>)
    ensures ValidReflector(t)
  {
    match id
    case A =>
      assert forall x: Letter :: PairsLetter(ReflectorA, Char(x)) by {
        forall x: Letter { ReflectorAPairs(x); }
      }
      assert forall c :: c in ReflectorA ==> IsUpper(c) by {
        forall c { ReflectorAKeys(c); }
      }
      ReflectorA
    case B =>
      assert forall x: Letter :: PairsLetter(ReflectorB, Char(x)) by {
        forall x: Letter { ReflectorBPairs(x); }
      }
      assert forall c :: c in ReflectorB ==> IsUpper(c) by {
        forall c { ReflectorBKeys(c); }
      }
      ReflectorB
  }

  /** Every upper-case letter is a key of each reflector table, and only those. */
  lemma ReflectorDefinedOnAlphabet(id: ReflectorId, c: char)
    ensures c in ReflectorTable(id) <==> IsUpper(c)
  {
    if IsUpper(c) {
      assert Char(Code(c)) == c;
    }
  }

  function Reflect(t: map<char, char>, x: Letter): Letter
    requires ValidReflector(t)
  {
    assert PairsLetter(t, Char(x));
    Code(t[Char(x)])
  }

  lemma ReflectIsInvolution(t: map<char, char>, x: Letter)
    requires ValidReflector(t)
    ensures Reflect(t, Reflect(t, x)) == x
    ensures Reflect(t, x) != x
  {
    var c := Char(x);
    assert PairsLetter(t, c);
    var d := t[c];
    assert Char(Code(d)) == d;
  }

  // ---------------------------------------------------------------------------
  // Plugboard

  /** The plugboard leaves every letter where it is. */
  const PlugboardMap: map<char, char> := map c | 'A' <= c <= 'Z' :: c

  function Plugboard(x: Letter): (y: Letter)
    ensures y == x
  {
    assert Char(x) in PlugboardMap;
    Code(PlugboardMap[Char(x)])
  }

  // ---------------------------------------------------------------------------
  // Stepping and encipherment

  /** The rotors and the reflector that a rotor order and a reflector id name. */
  datatype Machine = Machine(left: Rotor, mid: Rotor, right: Rotor, reflector: map<char, char>)

  predicate ValidMachine(m: Machine) {
    ValidRotor(m.left) && ValidRotor(m.mid) && ValidRotor(m.right) && ValidReflector(m.reflector)
  }

  function Assemble(order: RotorOrder, id: ReflectorId): (m: Machine)
    ensures ValidMachine(m)
  {
    Machine(RotorSpec(order.left), RotorSpec(order.mid), RotorSpec(order.right), ReflectorTable(id))
  }

  function Notch(id: RotorId): Letter {
    Code(RotorSpec(id).notch)
  }

  /** Stepping before each key press.  Every test reads the incoming
      positions, so a middle rotor at its notch moves together with the left
      rotor (the double step). */
  function Step(order: RotorOrder, p: Positions): (q: Positions)
    ensures q.right == (p.right + 1) % 26
    ensures q.left != p.left <==> p.mid == Notch(order.mid)
    ensures q.left == p.left || q.left == (p.left + 1) % 26
    ensures q.mid != p.mid <==> p.right == Notch(order.right) || p.mid == Notch(order.mid)
    ensures q.mid == p.mid || q.mid == (p.mid + 1) % 26
  {
    var midAtNotch := Char(p.mid) == RotorSpec(order.mid).notch;
    var rightAtNotch := Char(p.right) == RotorSpec(order.right).notch;
    var left := if midAtNotch then (p.left + 1) % 26 else p.left;
    var mid := if rightAtNotch || midAtNotch then (p.mid + 1) % 26 else p.mid;
    var right := (p.right + 1) % 26;
    Positions(left, mid, right)
  }

  /** The signal from the plugboard through the right, middle and left rotor. */
  function Inward(m: Machine, p: Positions, x: Letter): Letter
    requires ValidMachine(m)
  {
    Forward(m.left, Forward(m.mid, Forward(m.right, x, p.right), p.mid), p.left)
  }

  /** The signal from the reflector back through the left, middle and right rotor. */
  function Outward(m: Machine, p: Positions, y: Letter): Letter
    requires ValidMachine(m)
  {
    Backward(m.right, Backward(m.mid, Backward(m.left, y, p.left), p.mid), p.right)
  }

  lemma OutwardInward(m: Machine, p: Positions, x: Letter)
    requires ValidMachine(m)
    ensures Outward(m, p, Inward(m, p, x)) == x
  {
    var a := Forward(m.right, x, p.right);
    var b := Forward(m.mid, a, p.mid);
    BackwardForward(m.left, b, p.left);
    BackwardForward(m.mid, a, p.mid);
    BackwardForward(m.right, x, p.right);
  }

  lemma InwardOutward(m: Machine, p: Positions, y: Letter)
    requires ValidMachine(m)
    ensures Inward(m, p, Outward(m, p, y)) == y
  {
    var a := Backward(m.left, y, p.left);
    var b := Backward(m.mid, a, p.mid);
    ForwardBackward(m.right, b, p.right);
    ForwardBackward(m.mid, a, p.mid);
    ForwardBackward(m.left, y, p.left);
  }

  /** The letter substitution of the whole machine at fixed positions. */
  function Substitute(m: Machine, p: Positions, x: Letter): Letter
    requires ValidMachine(m)
  {
    Plugboard(Outward(m, p, Reflect(m.reflector, Inward(m, p, Plugboard(x)))))
  }

  /** At fixed positions the machine is its own inverse and never maps a
      letter to itself. */
  lemma SubstituteIsReciprocal(m: Machine, p: Positions, x: Letter)
    requires ValidMachine(m)
    ensures Substitute(m, p, Substitute(m, p, x)) == x
    ensures Substitute(m, p, x) != x
  {
    var z := Inward(m, p, x);
    var y := Substitute(m, p, x);
    InwardOutward(m, p, Reflect(m.reflector, z));
    assert Inward(m, p, y) == Reflect(m.reflector, z);
    ReflectIsInvolution(m.reflector, z);
    OutwardInward(m, p, x);
    assert Inward(m, p, y) != Inward(m, p, x);
  }

  /** encrypt_letter: step first, then substitute at the new positions. */
  function EncryptLetter(x: Letter, order: RotorOrder, p: Positions, id: ReflectorId): (Letter, Positions) {
    var q := Step(order, p);
    (Substitute(Assemble(order, id), q, x), q)
  }

  /** The positions returned depend only on the incoming positions and the
      rotor order, not on the letter or the reflector. */
  lemma PositionsIndependentOfLetter(
    x: Letter, y: Letter, order: RotorOrder, p: Positions, id: ReflectorId, id': ReflectorId)
    ensures EncryptLetter(x, order, p, id).1 == EncryptLetter(y, order, p, id').1 == Step(order, p)
  {
  }

  /** Enciphering the cipher letter from the same incoming positions gives the
      plain letter back, and no letter enciphers to itself. */
  lemma Reciprocity(x: Letter, order: RotorOrder, p: Positions, id: ReflectorId)
    ensures EncryptLetter(EncryptLetter(x, order, p, id).0, order, p, id).0 == x
    ensures EncryptLetter(x, order, p, id).0 != x
  {
    SubstituteIsReciprocal(Assemble(order, id), Step(order, p), x);
  }

  /** The double step: with the right rotor at its notch and the middle one
      letter short of its own, the middle rotor moves on two consecutive key
      presses, and the second press also moves the left rotor. */
  lemma DoubleStep(order: RotorOrder, p: Positions)
    requires p.right == Notch(order.right)
    requires (p.mid + 1) % 26 == Notch(order.mid)
    ensures var q := Step(order, p); var q' := Step(order, q);
      q.left == p.left && q.mid == Notch(order.mid) &&
      q'.left == (p.left + 1) % 26 && q'.mid == (q.mid + 1) % 26
  {
  }

  /** Rotors I, II, III at A, A, A with reflector B: pressing A steps the
      right rotor to B and lights B. */
  lemma FirstPressExample()
    ensures EncryptLetter(0, RotorOrder(I, II, III), Positions(0, 0, 0), B) == (1, Positions(0, 0, 1))
  {
    var order := RotorOrder(I, II, III);
    var q := Positions(0, 0, 1);
    assert Step(order, Positions(0, 0, 0)) == q;
    var m := Assemble(order, B);
    FirstPressInward(m);
    FirstPressReflect();
    FirstPressOutward(m);
    assert Substitute(m, q, 0) == 1;
  }

  /** The way in of that press: A reaches the reflector as F ... */
  lemma FirstPressInward(m: Machine)
    requires m == Assemble(RotorOrder(I, II, III), B)
    ensures Inward(m, Positions(0, 0, 1), 0) == 5
  {
    FirstPressRight(m.right);
    FirstPressMid(m.mid);
    FirstPressLeft(m.left);
  }

  lemma FirstPressRight(rt: Rotor)
    requires rt == RotorSpec(III)
    ensures Forward(rt, 0, 1) == 2
  {
    assert WiringIII[1] == 'D';
  }

  lemma FirstPressMid(rt: Rotor)
    requires rt == RotorSpec(II)
    ensures Forward(rt, 2, 0) == 3
  {
    assert WiringII[2] == 'D';
  }

  lemma FirstPressLeft(rt: Rotor)
    requires rt == RotorSpec(I)
    ensures Forward(rt, 3, 0) == 5
  {
    assert WiringI[3] == 'F';
  }

  /** ... which reflector B sends back as S. */
  lemma FirstPressReflect()
    ensures Reflect(ReflectorTable(B), 5) == 18
  {
    assert Char(5) == 'F';
    assert ReflectorB['F'] == 'S';
  }

  /** The way out: S comes back through rotors I, II, III as B. */
  lemma FirstPressOutward(m: Machine)
    requires m == Assemble(RotorOrder(I, II, III), B)
    ensures Outward(m, Positions(0, 0, 1), 18) == 1
  {
    FirstPressBackLeft(m.left);
    FirstPressBackMid(m.mid);
    FirstPressBackRight(m.right);
  }

  lemma FirstPressBackLeft(rt: Rotor)
    requires rt == RotorSpec(I)
    ensures Backward(rt, 18, 0) == 18
  {
    assert InverseI[18] == 18;
  }

  lemma FirstPressBackMid(rt: Rotor)
    requires rt == RotorSpec(II)
    ensures Backward(rt, 18, 0) == 4
  {
    assert InverseII[18] == 4;
  }

  lemma FirstPressBackRight(rt: Rotor)
    requires rt == RotorSpec(III)
    ensures Backward(rt, 4, 1) == 1
  {
    assert InverseIII[5] == 2;
  }
}
