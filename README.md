# Rotor cipher and cycle analyser, modelled in Dafny

This project models the core of a small Python repository about the Enigma rotor machine and Rejewski's cyclometer. It proves properties of that model:

- `enigma.dfy` (module `Enigma`) models `encrypt_letter` in `CODE/CycloMeter.py`. Three rotors from the catalogue I, II and III sit in a (left, middle, right) order. They step before every key press, including the middle rotor's double step. The signal passes an identity plugboard, then the rotors right to left, then reflector A or B, then the rotors left to right, then the plugboard again. Letters are alphabet indices 0..25. Each rotor carries its wiring string, the inverse of that permutation as an index table, and its notch letter. The catalogue constants are checked: each wiring is a permutation and each reflector is a fixed-point-free involution on A–Z. From these checks the model proves that the way back undoes the way in. It also proves that the machine is reciprocal and never enciphers a letter to itself.
- `cyclometer.dfy` (module `Cyclometer`) models `get_cycle_structure`.
  - For every letter, the analyser presses that letter, A, A and the letter again, starting from the ground setting. It takes the fourth output as the image of the letter, then splits this mapping into closed cycles, walking the alphabet in order.
  - The model proves that the mapping is the machine's substitution at the positions stepped four times. It follows that the mapping is a fixed-point-free involution. Every cycle `get_cycle_structure` returns is therefore `[S, T, S]` with `S < T` and `T` the image of `S`.
  - So the docstring's example of a longer cycle such as `[A, G, X, A]` (`CODE/CycloMeter.py:108-109`) cannot occur. The loop keeps only the fourth press of the letter, and does not compose the first press with the fourth as Rejewski's method does.
  - There are exactly 13 cycles, listed by increasing first letter. Every letter appears in exactly one cycle body, and the reported cycle lengths sum to 26.
  - The rotor-distinctness test of the analysis screen is modelled too.
- `shift_cipher.dfy` (module `ShiftCipher`) models the per-character loop of `on_button_click` in `CODE/3_rotor_python_A.py`.
  - The message is upper-cased. Each letter is shifted through rotors 1, 2, 3, adding the shifts (A = 1, ..., Z = 26) when encrypting. When decrypting it goes through rotors 3, 2, 1, subtracting them. The rotor positions then step like a three-digit base-26 odometer.
  - Characters other than letters are copied and do not step the rotors.
  - The model proves a closed form for each output character. It also proves that the stepping ignores the mode and the letters. Finally, it proves that decrypting the encrypted upper-cased message from the same positions gives it back.

Functions take and return values: the engine keeps nothing between calls, as in the source. The two loops of the source are methods with loop invariants:

- the walk over the alphabet and its inner `while True`;
- the per-character loop with its nested stepping `if`s.

Each method is proved against the functions that specify it. The positions, rotor order and reflector are parameters: in the source they come from the widgets.

The ghost table `t` stands for the indicator mapping listed letter by letter:

- `IsIndicatorTable(t, ...)` says that `t` lists the mapping.
- `GetCycleStructure`'s first postcondition states that such a table exists, that it is a swap table, and that every cycle is a pair cycle of it.
- `IndicatorPairs` turns that into statements about `IndicatorMapping` itself.

## Model

| member | source | states |
|---|---|---|
| Enigma.Code | CODE/CycloMeter.py:47 | char_to_index; no contract of its own, `Char` states that it inverts index_to_char |
| Enigma.Char | CODE/CycloMeter.py:47-48 | index_to_char yields an upper-case letter, and char_to_index maps it back to the same index |
| Enigma.WiringIPermutation | CODE/CycloMeter.py:12 | the wiring of rotor I is a permutation of A–Z, and the stored index table is its inverse in both directions |
| Enigma.WiringIIPermutation | CODE/CycloMeter.py:13 | the same for rotor II |
| Enigma.WiringIIIPermutation | CODE/CycloMeter.py:14 | the same for rotor III |
| Enigma.RotorSpec | CODE/CycloMeter.py:11-16 | every catalogue rotor has a 26-letter permutation wiring with its inverse table, and its notch (Q, E, V) is a letter |
| Enigma.Wire | CODE/CycloMeter.py:58 | the lookup `wiring_str[...]` of a forward pass; no contract of its own, `UnwireWire` states that `Unwire` inverts it |
| Enigma.Unwire | CODE/CycloMeter.py:83-97 | the lookup that replaces `wiring_str.index`; no contract of its own, `UnwireWire` states that it inverts `Wire` both ways |
| Enigma.Forward | CODE/CycloMeter.py:53-72 | one forward rotor pass at an offset; no contract of its own, `BackwardForward` and `ForwardBackward` state that `Backward` inverts it |
| Enigma.Backward | CODE/CycloMeter.py:78-97 | one reverse rotor pass at an offset; no contract of its own, `BackwardForward` and `ForwardBackward` state that it inverts `Forward` |
| Enigma.UnwireWire | CODE/CycloMeter.py:83-97 | the inverse table, which replaces `wiring_str.index`, undoes the wiring and the wiring undoes it |
| Enigma.BackwardForward | CODE/CycloMeter.py:53-97 | at any offset, the reverse pass through a rotor undoes the forward pass |
| Enigma.ForwardBackward | CODE/CycloMeter.py:53-97 | at any offset, the forward pass through a rotor undoes the reverse pass |
| Enigma.ReflectorAPairs | CODE/CycloMeter.py:19-23 | reflector A sends every letter to a different letter, which it sends back |
| Enigma.ReflectorAKeys | CODE/CycloMeter.py:19-23 | reflector A has only upper-case letters as keys |
| Enigma.ReflectorBPairs | CODE/CycloMeter.py:24-28 | reflector B sends every letter to a different letter, which it sends back |
| Enigma.ReflectorBKeys | CODE/CycloMeter.py:24-28 | reflector B has only upper-case letters as keys |
| Enigma.ReflectorTable | CODE/CycloMeter.py:18-28 | both reflector tables are fixed-point-free involutions on the alphabet |
| Enigma.ReflectorDefinedOnAlphabet | CODE/CycloMeter.py:18-28 | a character is a key of either reflector table exactly when it is an upper-case letter, so the lookup at line 76 never fails |
| Enigma.Reflect | CODE/CycloMeter.py:74-76 | the reflector lookup; no contract of its own, `ReflectIsInvolution` states that it is a fixed-point-free involution |
| Enigma.ReflectIsInvolution | CODE/CycloMeter.py:74-76 | reflecting twice gives the letter back, and reflecting once always changes it |
| Enigma.Plugboard | CODE/CycloMeter.py:31 | the plugboard leaves every letter unchanged |
| Enigma.Assemble | CODE/CycloMeter.py:33-34 | the rotors of any order, even with repeats, and either reflector form a valid machine |
| Enigma.Notch | CODE/CycloMeter.py:16 | the notch letter of a rotor as an index; no contract of its own, used by `Step`'s contract |
| Enigma.Step | CODE/CycloMeter.py:37-45 | the right position always advances by one mod 26; the left advances by one exactly when the incoming middle position is at the middle rotor's notch; the middle advances by one exactly when the incoming right is at its notch or the incoming middle is at its own; nothing else moves |
| Enigma.DoubleStep | CODE/CycloMeter.py:37-45 | with the right rotor at its notch and the middle one letter short of its notch, one press moves only the middle rotor onto its notch (and the right rotor); the next press moves the middle and left rotors together |
| Enigma.Inward | CODE/CycloMeter.py:53-72 | the forward passes right, middle, left; no contract of its own, `OutwardInward` and `InwardOutward` state that `Outward` inverts it |
| Enigma.Outward | CODE/CycloMeter.py:78-97 | the reverse passes left, middle, right; no contract of its own, `OutwardInward` and `InwardOutward` state that it inverts `Inward` |
| Enigma.Substitute | CODE/CycloMeter.py:50-101 | plugboard, rotors, reflector, rotors, plugboard at fixed positions; no contract of its own, `SubstituteIsReciprocal` states that it is a fixed-point-free involution |
| Enigma.EncryptLetter | CODE/CycloMeter.py:33-104 | encrypt_letter, stepping before substituting; no contract of its own, `Reciprocity`, `PositionsIndependentOfLetter` and `FirstPressExample` state its properties |
| Enigma.OutwardInward | CODE/CycloMeter.py:53-97 | the whole way back through the three rotors undoes the way in |
| Enigma.InwardOutward | CODE/CycloMeter.py:53-97 | the way in undoes the way back |
| Enigma.SubstituteIsReciprocal | CODE/CycloMeter.py:50-101 | at fixed positions the substitution is its own inverse and never maps a letter to itself |
| Enigma.PositionsIndependentOfLetter | CODE/CycloMeter.py:37-45 | the returned positions are the stepped incoming positions, whatever the letter and the reflector |
| Enigma.Reciprocity | CODE/CycloMeter.py:33-104 | from the same incoming positions, enciphering the cipher letter gives the plain letter, and no letter enciphers to itself |
| Enigma.FirstPressExample | CODE/CycloMeter.py:33-104 | with rotors I, II, III at A, A, A and reflector B, pressing A returns B and positions A, A, B |
| Enigma.FirstPressInward | CODE/CycloMeter.py:53-72 | on that press, A reaches the reflector as F |
| Enigma.FirstPressReflect | CODE/CycloMeter.py:74-76 | reflector B sends F to S |
| Enigma.FirstPressOutward | CODE/CycloMeter.py:78-101 | S comes back through rotors I, II, III as B |
| Cyclometer.DistinctRotors | CODE/CycloMeter.py:172 | the analysis screen accepts a rotor order exactly when its three rotors are pairwise different |
| Cyclometer.IndicatorMapping | CODE/CycloMeter.py:124-136 | the four presses from the ground setting; no contract of its own, `IndicatorIsSubstitution` and `IndicatorIsInvolution` state its properties |
| Cyclometer.FourthPositions | CODE/CycloMeter.py:124-136 | the positions of the fourth press, the start stepped four times; no contract of its own, `IndicatorIsSubstitution` states that the fourth press uses them for every letter |
| Cyclometer.IndicatorIsSubstitution | CODE/CycloMeter.py:119-135 | the image of a letter under the four-press procedure is the machine's substitution at the start positions stepped four times, the same positions for every letter |
| Cyclometer.IndicatorIsInvolution | CODE/CycloMeter.py:119-135 | the indicator mapping is its own inverse and moves every letter |
| Cyclometer.IndicatorTableOf | CODE/CycloMeter.py:119-135 | the mapping, listed letter by letter, is a table that is its own inverse and has no fixed point |
| Cyclometer.IndicatorPresses | CODE/CycloMeter.py:122-135 | the four presses of one round return the indicator mapping's image of the pressed letter |
| Cyclometer.TraceCycle | CODE/CycloMeter.py:116-149 | from a start letter the inner loop stops after two rounds; it returns the cycle [letter, image, letter] and marks exactly those two letters seen |
| Cyclometer.GetCycleStructure | CODE/CycloMeter.py:106-151 | every returned cycle is [S, T, S] with S < T and T the image of S; the cycles are listed by increasing first letter; every letter lies in a cycle body, and in only one place across all bodies; there are 13 cycles and their lengths without the repeat sum to 26 |
| Cyclometer.IndicatorPairs | CODE/CycloMeter.py:119-150 | the pair cycles of the listed table are cycles [S, T, S] of the indicator mapping itself |
| Cyclometer.CycleLettersInSomeBody | CODE/CycloMeter.py:113-150 | the letters gathered from the cycle bodies are exactly the letters found in some cycle body, which is what the walk keeps in `seen` |
| Cyclometer.PairCyclesDisjoint | CODE/CycloMeter.py:113-150 | two pair cycles of a swap table, listed by first letter, share a letter only at the same place of the same cycle |
| Cyclometer.PairCyclesPartition | CODE/CycloMeter.py:113-150 | no letter occurs twice among the pair cycles' bodies |
| Cyclometer.SkipSeenLetter | CODE/CycloMeter.py:113-150 | skipping a letter already seen keeps everything the walk has established |
| Cyclometer.PartnerUnseen | CODE/CycloMeter.py:113-150 | the image of the first unseen letter is a later letter that is unseen too |
| Cyclometer.AddPairCycle | CODE/CycloMeter.py:116-150 | a new cycle from an unseen letter keeps the cycles sorted pair cycles, makes seen hold exactly their letters, and covers every letter up to this one |
| Cyclometer.CyclesAtEnd | CODE/CycloMeter.py:113-151 | after the whole alphabet, the cycles cover it, no letter occurs twice, and there are 13 of them, with lengths summing to 26 |
| Cyclometer.LengthSum | CODE/CycloMeter.py:203-205 | the report's sum of `len(cycle) - 1`; no contract of its own, `LengthSumOfPairs` and `GetCycleStructure` state its value |
| Cyclometer.LengthSumOfPairs | CODE/CycloMeter.py:203-205 | the report's sum of `len(cycle) - 1` is twice the number of cycles when every cycle has three entries |
| ShiftCipher.IsAlpha | CODE/3_rotor_python_A.py:32 | `str.isalpha` on ASCII; no contract of its own, `UpperChar` and `TransformLetters` state how it sorts characters |
| ShiftCipher.UpperChar | CODE/3_rotor_python_A.py:24 | upper-casing keeps letters letters and non-letters unchanged, turns every letter into A–Z, and sends each lower-case letter to its own capital |
| ShiftCipher.ToUpper | CODE/3_rotor_python_A.py:24 | the upper-cased message has the same length and is upper-cased character by character |
| ShiftCipher.ToUpperIdentity | CODE/3_rotor_python_A.py:24 | upper-casing a message without lower-case letters changes nothing |
| ShiftCipher.ToUpperHasNoLowerCase | CODE/3_rotor_python_A.py:24 | an upper-cased message has no lower-case letters |
| ShiftCipher.Shift | CODE/3_rotor_python_A.py:40-42 | a rotor at position r shifts by its index plus one, between 1 and 26 |
| ShiftCipher.Rotate | CODE/3_rotor_python_A.py:45-54 | one rotor pass `chr((ord(c) - 65 + s) % 26 + 65)`; no contract of its own, `RotateRotate` states that passes compose by adding shifts |
| ShiftCipher.RotateRotate | CODE/3_rotor_python_A.py:45-47 | two rotor passes in a row are one pass by the sum of their shifts |
| ShiftCipher.EncryptChar | CODE/3_rotor_python_A.py:43-47 | the Encrypt branch; no contract of its own, `EncryptCharShift` gives its closed form and `DecryptEncrypt` its inverse |
| ShiftCipher.DecryptChar | CODE/3_rotor_python_A.py:50-54 | the Decrypt branch; no contract of its own, `DecryptCharShift` gives its closed form and `EncryptDecrypt` its inverse |
| ShiftCipher.Cipher | CODE/3_rotor_python_A.py:43-54 | the choice between the two branches by mode; no contract of its own, `TransformAt` and `RoundTrip` state its properties in a message |
| ShiftCipher.EncryptCharShift | CODE/3_rotor_python_A.py:40-47 | encrypting c gives the letter (c + (r1+1) + (r2+1) + (r3+1)) mod 26 |
| ShiftCipher.DecryptCharShift | CODE/3_rotor_python_A.py:52-54 | decrypting c gives the letter (c − (r1+1) − (r2+1) − (r3+1)) mod 26 |
| ShiftCipher.DecryptEncrypt | CODE/3_rotor_python_A.py:45-54 | at the same positions, decryption undoes encryption |
| ShiftCipher.EncryptDecrypt | CODE/3_rotor_python_A.py:45-54 | at the same positions, encryption undoes decryption |
| ShiftCipher.Advance | CODE/3_rotor_python_A.py:61-74 | rotor 1 always advances by one mod 26; rotor 2 changes exactly when rotor 1 wraps from Z, and then advances by one; rotor 3 changes exactly when both wrap, and then advances by one |
| ShiftCipher.AdvanceCounts | CODE/3_rotor_python_A.py:60-74 | read as a base-26 number with rotor 1 lowest, one step adds one modulo 26^3 |
| ShiftCipher.AdvanceNCounts | CODE/3_rotor_python_A.py:60-74 | n steps add n modulo 26^3 |
| ShiftCipher.StepRotors | CODE/3_rotor_python_A.py:61-74 | the nested `if`s of the loop compute the odometer step |
| ShiftCipher.Transform | CODE/3_rotor_python_A.py:30-57 | the output has exactly one character per input character |
| ShiftCipher.TransformAt | CODE/3_rotor_python_A.py:30-74 | output character i is input character i when that is not a letter; otherwise it is that letter enciphered at the start positions stepped once per earlier letter, the same positions for either mode |
| ShiftCipher.TransformKeepsOthers | CODE/3_rotor_python_A.py:32-38 | a character that is not a letter is copied unchanged |
| ShiftCipher.TransformLetters | CODE/3_rotor_python_A.py:30-57 | letters stay letters, other characters stay other characters, and every output letter is upper case |
| ShiftCipher.RoundTrip | CODE/3_rotor_python_A.py:43-74 | from the same start positions, decrypting the encryption of a message without lower-case letters returns it; so does encrypting its decryption |
| ShiftCipher.MessageRoundTrip | CODE/3_rotor_python_A.py:24-79 | running the program in Decrypt mode on the output of a run in Encrypt mode, from the same positions, returns the upper-cased message |
| ShiftCipher.RunCipher | CODE/3_rotor_python_A.py:24-79 | the loop's output is the upper-cased message transformed character by character, as `Transform` and the lemmas above describe |

## Left out

- The widget user interface is not modelled. This covers the dropdowns, toggle buttons, `interact`, the button callback, the `Output` area and the layout, in both scripts. The rotor order, positions, reflector, message and mode become parameters.
- Printing and report formatting are not modelled: the cycle strings, the per-character path and position traces, and the header and output lines. These are I/O only.
- The sort at `CODE/CycloMeter.py:183` is not modelled. It only orders the cycles for display, and `GetCycleStructure` proves they already come out in increasing order of first letter.
- The refusal at `CODE/CycloMeter.py:172-174` prints a message; only its test (`DistinctRotors`) is modelled. `EncryptLetter` and `GetCycleStructure` accept any rotor order, repeats included, as the source functions do.
- Characters, `ord`/`chr` and `string.ascii_uppercase` in `encrypt_letter` are replaced by alphabet indices 0..25, alongside `Char` and `Code`. The same holds in `get_cycle_structure` (`CODE/CycloMeter.py:114-150`): the walked letters, the `seen` set, the cycle lists and the dummy letter `'A'` (index 0) are indices, not characters.
- The linear search `wiring_str.index` is replaced by a precomputed inverse table for each rotor. `UnwireWire` proves that table inverts the wiring.
- The plugboard is only the identity table of `CODE/CycloMeter.py:31`, which is the only plugboard the source has.
- `ShiftCipher.IsAlpha`, `ShiftCipher.UpperChar` and `ShiftCipher.ToUpper` follow `str.isalpha` and `str.upper` on ASCII only. A non-ASCII letter counts as a non-letter and is copied unchanged. In Python it would be shifted and would also step the rotors, which changes every later letter of the output. Also, `upper()` can change a message's length (for example `ß` becomes `SS`). The Unicode tables are not modelled.
- `encrypt_letter` and `get_cycle_structure` give `reflector_type` the default "A" (`CODE/CycloMeter.py:33`, `CODE/CycloMeter.py:106`). In the model the `ReflectorId` is always passed explicitly; no default is modelled.
- The rotor positions of the shift cipher are the letters A–Z, as the dropdowns offer them. Positions outside A–Z cannot arise there.
- The reference cycle structure for rotors I, II, III at A, A, A with reflector B is not computed as a fixed value. `GetCycleStructure` states its shape for every setting. A single press at that setting is computed (`FirstPressExample`).
- `CODE/3_rotor_B_[live].py` is not part of this model.
