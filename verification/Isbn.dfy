/** ISBN check digits: what the two validators accept, and which typing errors they catch. */
module Isbn {
  /** Digit classification of a character is the text library's: any script's decimal digits count. */
  datatype Digits = Digits(isDigit: char -> bool, value: char -> int) {
    ghost predicate Lawful() {
      && (forall c :: isDigit(c) ==> 0 <= value(c) <= 9)
      && !isDigit('-') && !isDigit(' ') && !isDigit('X') && !isDigit('x')
    }
  }

  /** The ASCII digits alone are such a classification. */
  lemma AsciiIsLawful()
    ensures Digits(c => '0' <= c <= '9', c => c as int - '0' as int).Lawful()
  {
  }

  predicate Separator(c: char) {
    c == '-' || c == ' '
  }

  function Cleaned(s: string): string {
    if s == "" then "" else if Separator(s[0]) then Cleaned(s[1..]) else [s[0]] + Cleaned(s[1..])
  }

  // ---------- The rules, stated by position ----------

  /** The value a character has at a position of an ISBN-10; -1 where it is not allowed. */
  function Value10(d: Digits, i: nat, c: char): int {
    if d.isDigit(c) then d.value(c) else if i == 9 && (c == 'X' || c == 'x') then 10 else -1
  }

  function Value13(d: Digits, i: nat, c: char): int {
    if d.isDigit(c) then d.value(c) else -1
  }

  function Weight13(i: nat): int {
    if i % 2 == 0 then 1 else 3
  }

  function Sum10(d: Digits, s: string, n: nat): int
    requires n <= |s|
  {
    if n == 0 then 0 else Sum10(d, s, n - 1) + n * Value10(d, n - 1, s[n - 1])
  }

  function Sum13(d: Digits, s: string, n: nat): int
    requires n <= |s|
  {
    if n == 0 then 0 else Sum13(d, s, n - 1) + Weight13(n - 1) * Value13(d, n - 1, s[n - 1])
  }

  predicate Valid10(d: Digits, s: string) {
    |s| == 10 && (forall i :: 0 <= i < 10 ==> Value10(d, i, s[i]) >= 0) && Sum10(d, s, 10) % 11 == 0
  }

  predicate Valid13(d: Digits, s: string) {
    |s| == 13 && (forall i :: 0 <= i < 13 ==> Value13(d, i, s[i]) >= 0) && Sum13(d, s, 13) % 10 == 0
  }

  predicate Valid(d: Digits, isbn: string) {
    Valid10(d, Cleaned(isbn)) || Valid13(d, Cleaned(isbn))
  }

  // ---------- The validators ----------

  method Clean(isbn: string) returns (cleaned: string)
    ensures cleaned == Cleaned(isbn)
  {
    cleaned := "";
    for i := 0 to |isbn|
      invariant Cleaned(isbn) == cleaned + Cleaned(isbn[i..])
    {
      assert isbn[i..][1..] == isbn[i + 1..];
      if !Separator(isbn[i]) {
        cleaned := cleaned + [isbn[i]];
      }
    }
  }

  method IsValidIsbn10(d: Digits, s: string) returns (ok: bool)
    requires d.Lawful()
    ensures ok == Valid10(d, s)
  {
    if |s| != 10 { return false; }
    var sum := 0;
    for i := 0 to 9
      invariant forall k :: 0 <= k < i ==> Value10(d, k, s[k]) >= 0
      invariant sum == Sum10(d, s, i)
    {
      if !d.isDigit(s[i]) {
        assert Value10(d, i, s[i]) == -1;
        return false;
      }
      sum := sum + (i + 1) * d.value(s[i]);
    }
    if s[9] == 'X' || s[9] == 'x' {
      sum := sum + 10 * 10;
    } else if d.isDigit(s[9]) {
      sum := sum + 10 * d.value(s[9]);
    } else {
      assert Value10(d, 9, s[9]) == -1;
      return false;
    }
    return sum % 11 == 0;
  }

  method IsValidIsbn13(d: Digits, s: string) returns (ok: bool)
    requires d.Lawful()
    ensures ok == Valid13(d, s)
  {
    if |s| != 13 { return false; }
    var sum := 0;
    for i := 0 to 13
      invariant forall k :: 0 <= k < i ==> Value13(d, k, s[k]) >= 0
      invariant sum == Sum13(d, s, i)
    {
      if !d.isDigit(s[i]) {
        assert Value13(d, i, s[i]) == -1;
        return false;
      }
      var digit := d.value(s[i]);
      sum := sum + if i % 2 == 0 then digit else digit * 3;
    }
    return sum % 10 == 0;
  }

  method IsValidIsbn(d: Digits, isbn: string) returns (ok: bool)
    requires d.Lawful()
    ensures ok == Valid(d, isbn)
  {
    var cleaned := Clean(isbn);
    if |cleaned| == 10 {
      ok := IsValidIsbn10(d, cleaned);
    } else if |cleaned| == 13 {
      ok := IsValidIsbn13(d, cleaned);
    } else {
      ok := false;
    }
  }

  // ---------- The check digit ----------

  lemma SumByPlaces(d: Digits, s: string)
    requires |s| == 10
    ensures Sum10(d, s, 10) ==
            1 * Value10(d, 0, s[0]) + 2 * Value10(d, 1, s[1]) + 3 * Value10(d, 2, s[2]) + 4 * Value10(d, 3, s[3])
            + 5 * Value10(d, 4, s[4]) + 6 * Value10(d, 5, s[5]) + 7 * Value10(d, 6, s[6]) + 8 * Value10(d, 7, s[7])
            + 9 * Value10(d, 8, s[8]) + 10 * Value10(d, 9, s[9])
  {
    hide Value10;
    assert Sum10(d, s, 1) == 1 * Value10(d, 0, s[0]);
    assert Sum10(d, s, 2) == Sum10(d, s, 1) + 2 * Value10(d, 1, s[1]);
    assert Sum10(d, s, 3) == Sum10(d, s, 2) + 3 * Value10(d, 2, s[2]);
    assert Sum10(d, s, 4) == Sum10(d, s, 3) + 4 * Value10(d, 3, s[3]);
    assert Sum10(d, s, 5) == Sum10(d, s, 4) + 5 * Value10(d, 4, s[4]);
    assert Sum10(d, s, 6) == Sum10(d, s, 5) + 6 * Value10(d, 5, s[5]);
    assert Sum10(d, s, 7) == Sum10(d, s, 6) + 7 * Value10(d, 6, s[6]);
    assert Sum10(d, s, 8) == Sum10(d, s, 7) + 8 * Value10(d, 7, s[7]);
    assert Sum10(d, s, 9) == Sum10(d, s, 8) + 9 * Value10(d, 8, s[8]);
  }

  /** Ten characters are an ISBN exactly if nine digits are followed by their check digit, the sum of the nine weighted
      1 to 9 modulo 11, with an X of either case for ten. */
  lemma CheckDigit10(d: Digits, s: string)
    requires d.Lawful() && |s| == 10
    ensures Valid10(d, s) <==>
            && (forall i :: 0 <= i < 9 ==> d.isDigit(s[i]))
            && (d.isDigit(s[9]) || s[9] == 'X' || s[9] == 'x')
            && (if d.isDigit(s[9]) then d.value(s[9]) else 10) ==
                 (1 * d.value(s[0]) + 2 * d.value(s[1]) + 3 * d.value(s[2]) + 4 * d.value(s[3]) + 5 * d.value(s[4])
                  + 6 * d.value(s[5]) + 7 * d.value(s[6]) + 8 * d.value(s[7]) + 9 * d.value(s[8])) % 11
  {
    SumByPlaces(d, s);
    hide Sum10;
    if (forall i :: 0 <= i < 9 ==> d.isDigit(s[i])) && (d.isDigit(s[9]) || s[9] == 'X' || s[9] == 'x') {
      LastOfEleven(Sum10(d, s, 10) - 10 * Value10(d, 9, s[9]), Value10(d, 9, s[9]));
    } else {
      NotAllOf10(d, s);
    }
  }

  lemma NotAllOf10(d: Digits, s: string)
    requires |s| == 10
    requires !((forall i :: 0 <= i < 9 ==> d.isDigit(s[i])) && (d.isDigit(s[9]) || s[9] == 'X' || s[9] == 'x'))
    ensures !Valid10(d, s)
  {
    if !(d.isDigit(s[9]) || s[9] == 'X' || s[9] == 'x') {
      assert Value10(d, 9, s[9]) == -1;
    } else {
      var i :| 0 <= i < 9 && !d.isDigit(s[i]);
      assert Value10(d, i, s[i]) == -1;
    }
  }

  lemma LastOfEleven(sum: int, last: int)
    requires 0 <= last <= 10
    ensures (sum + 10 * last) % 11 == 0 <==> last == sum % 11
  {
    assert sum + 10 * last == (sum - last) + 11 * last;
  }

  /** Thirteen characters are an ISBN exactly if they are digits and the last completes the others, weighted 1 and 3 by
      turns, to a multiple of ten. */
  lemma CheckDigit13(d: Digits, s: string)
    requires d.Lawful() && |s| == 13
    ensures Valid13(d, s) <==>
            && (forall i :: 0 <= i < 13 ==> d.isDigit(s[i]))
            && d.value(s[12]) ==
                 (10 - (d.value(s[0]) + 3 * d.value(s[1]) + d.value(s[2]) + 3 * d.value(s[3]) + d.value(s[4])
                        + 3 * d.value(s[5]) + d.value(s[6]) + 3 * d.value(s[7]) + d.value(s[8]) + 3 * d.value(s[9])
                        + d.value(s[10]) + 3 * d.value(s[11])) % 10) % 10
  {
    SumByTurns(d, s);
    hide Sum13;
    if forall i :: 0 <= i < 13 ==> d.isDigit(s[i]) {
      LastOfTen(Sum13(d, s, 12), Value13(d, 12, s[12]));
    } else {
      var i :| 0 <= i < 13 && !d.isDigit(s[i]);
      assert Value13(d, i, s[i]) == -1;
    }
  }

  lemma SumByTurns(d: Digits, s: string)
    requires |s| == 13
    ensures var odd := Value13(d, 0, s[0]) + Value13(d, 2, s[2]) + Value13(d, 4, s[4]) + Value13(d, 6, s[6])
                       + Value13(d, 8, s[8]) + Value13(d, 10, s[10]);
      var even := Value13(d, 1, s[1]) + Value13(d, 3, s[3]) + Value13(d, 5, s[5]) + Value13(d, 7, s[7])
                  + Value13(d, 9, s[9]) + Value13(d, 11, s[11]);
      Sum13(d, s, 12) == odd + 3 * even && Sum13(d, s, 13) == odd + 3 * even + Value13(d, 12, s[12])
  {
    Pair13(d, s, 0);
    Pair13(d, s, 2);
    Pair13(d, s, 4);
    Pair13(d, s, 6);
    Pair13(d, s, 8);
    Pair13(d, s, 10);
    hide Value13;
    assert Sum13(d, s, 13) == Sum13(d, s, 12) + Value13(d, 12, s[12]);
  }

  lemma Pair13(d: Digits, s: string, n: nat)
    requires n + 2 <= |s| && n % 2 == 0
    ensures Sum13(d, s, n + 2) == Sum13(d, s, n) + Value13(d, n, s[n]) + 3 * Value13(d, n + 1, s[n + 1])
    ensures Sum13(d, s, n + 1) == Sum13(d, s, n) + Value13(d, n, s[n])
  {
  }

  lemma LastOfTen(sum: int, last: int)
    requires 0 <= last <= 9
    ensures (sum + last) % 10 == 0 <==> last == (10 - sum % 10) % 10
  {
  }

  /** Hyphens and spaces never count, wherever they are typed, and nothing else is taken away. */
  lemma {:induction false} SeparatorsDoNotCount(before: string, c: char, after: string)
    ensures c == '-' || c == ' ' ==> Cleaned(before + [c] + after) == Cleaned(before + after)
    ensures '-' !in before && ' ' !in before ==> Cleaned(before) == before
  {
    if before == "" {
      assert (before + [c] + after)[1..] == after && before + after == after;
    } else {
      SeparatorsDoNotCount(before[1..], c, after);
      assert (before + [c] + after)[1..] == before[1..] + [c] + after;
      assert (before + after)[1..] == before[1..] + after;
      assert before[0] in before && before == [before[0]] + before[1..];
    }
  }

  // ---------- What they catch, on cleaned strings ----------

  lemma {:induction false} Sum10Change(d: Digits, s: string, p: nat, c: char, n: nat)
    requires p < |s| && n <= |s|
    ensures Sum10(d, s[p := c], n) == Sum10(d, s, n)
              + if p < n then (p + 1) * (Value10(d, p, c) - Value10(d, p, s[p])) else 0
  {
    if n > 0 {
      Sum10Change(d, s, p, c, n - 1);
      if p == n - 1 {
        Distribute(n, Value10(d, p, c), Value10(d, p, s[p]));
      }
    }
  }

  lemma Distribute(w: int, a: int, b: int)
    ensures w * (a - b) == w * a - w * b
  {
  }

  lemma {:induction false} Sum13Change(d: Digits, s: string, p: nat, c: char, n: nat)
    requires p < |s| && n <= |s|
    ensures Sum13(d, s[p := c], n) == Sum13(d, s, n)
              + if p < n then Weight13(p) * (Value13(d, p, c) - Value13(d, p, s[p])) else 0
  {
    if n > 0 {
      Sum13Change(d, s, p, c, n - 1);
    }
  }

  /** Eleven is prime: no weight times no difference of two values is a multiple of it. */
  lemma NotMultipleOf11(w: int, v: int)
    requires 1 <= w <= 10 && -10 <= v <= 10 && v != 0
    ensures (w * v) % 11 != 0
  {
    if w == 1 {} else if w == 2 {} else if w == 3 {} else if w == 4 {} else if w == 5 {}
    else if w == 6 {} else if w == 7 {} else if w == 8 {} else if w == 9 {} else {}
  }

  lemma Residue(m: int, sum: int, delta: int)
    requires (m == 10 || m == 11) && sum % m == 0
    ensures (sum + delta) % m == 0 <==> delta % m == 0
  {
  }

  /** One changed character keeps a valid ISBN-10 valid only if it has the same value. */
  lemma Change10(d: Digits, s: string, p: nat, c: char)
    requires d.Lawful() && Valid10(d, s) && p < 10
    ensures Valid10(d, s[p := c]) <==> Value10(d, p, c) == Value10(d, p, s[p])
  {
    var t, a, b := s[p := c], Value10(d, p, c), Value10(d, p, s[p]);
    assert b >= 0;
    forall i | 0 <= i < 10 && i != p ensures Value10(d, i, t[i]) >= 0 {
      assert Value10(d, i, s[i]) >= 0;
    }
    assert Value10(d, p, t[p]) == a;
    if a >= 0 {
      Sum10Change(d, s, p, c, 10);
      Weighted11(p + 1, a - b, Sum10(d, s, 10), Sum10(d, t, 10));
    }
  }

  lemma Change13(d: Digits, s: string, p: nat, c: char)
    requires d.Lawful() && Valid13(d, s) && p < 13
    ensures Valid13(d, s[p := c]) <==> Value13(d, p, c) == Value13(d, p, s[p])
  {
    var t, a, b := s[p := c], Value13(d, p, c), Value13(d, p, s[p]);
    assert b >= 0;
    forall i | 0 <= i < 13 && i != p ensures Value13(d, i, t[i]) >= 0 {
      assert Value13(d, i, s[i]) >= 0;
    }
    assert Value13(d, p, t[p]) == a;
    if a >= 0 {
      Sum13Change(d, s, p, c, 13);
      Residue(10, Sum13(d, s, 13), Weight13(p) * (a - b));
    }
  }

  function Swapped(s: string, p: nat, q: nat): string
    requires p < |s| && q < |s|
  {
    s[p := s[q]][q := s[p]]
  }

  lemma Swap10Places(d: Digits, s: string, p: nat, q: nat, i: nat)
    requires |s| == 10 && p < q < 10 && i < 10
    requires Value10(d, p, s[p]) >= 0 && Value10(d, i, s[i]) >= 0
    requires d.isDigit(s[q]) ==> d.value(s[q]) >= 0
    ensures d.isDigit(s[q]) ==> Value10(d, i, Swapped(s, p, q)[i]) >= 0
    ensures i == p && !d.isDigit(s[q]) ==> Value10(d, i, Swapped(s, p, q)[i]) < 0
  {
    var t := Swapped(s, p, q);
    assert t[p] == s[q] && t[q] == s[p] && (i != p && i != q ==> t[i] == s[i]);
  }

  lemma Swap10Digits(d: Digits, s: string, p: nat, q: nat)
    requires |s| == 10 && Sum10(d, s, 10) % 11 == 0 && p < q < 10 && d.isDigit(s[p]) && d.isDigit(s[q])
    requires 0 <= d.value(s[p]) <= 9 && 0 <= d.value(s[q]) <= 9
    ensures Sum10(d, Swapped(s, p, q), 10) % 11 == 0 <==> d.value(s[p]) == d.value(s[q])
  {
    Swap10Sum(d, s, p, q);
    Weighted11(q - p, d.value(s[p]) - d.value(s[q]), Sum10(d, s, 10), Sum10(d, Swapped(s, p, q), 10));
  }

  lemma Weighted11(w: int, v: int, before: int, after: int)
    requires 1 <= w <= 10 && -10 <= v <= 10 && before % 11 == 0 && after == before + w * v
    ensures after % 11 == 0 <==> v == 0
  {
    if v == 0 {
      assert after == before;
    } else {
      NotMultipleOf11(w, v);
      Residue(11, before, w * v);
    }
  }

  /** Swapping any two characters of a valid ISBN-10 keeps it valid only if they are equal digits. */
  lemma Swap10(d: Digits, s: string, p: nat, q: nat)
    requires d.Lawful() && Valid10(d, s) && p < q < 10
    ensures Valid10(d, Swapped(s, p, q)) <==> Value10(d, p, s[p]) == Value10(d, q, s[q]) && d.isDigit(s[q])
  {
    assert Value10(d, p, s[p]) >= 0;
    if d.isDigit(s[q]) {
      forall i | 0 <= i < 10 ensures Value10(d, i, Swapped(s, p, q)[i]) >= 0 {
        assert Value10(d, i, s[i]) >= 0;
        Swap10Places(d, s, p, q, i);
      }
      Swap10Digits(d, s, p, q);
    } else {
      Swap10Places(d, s, p, q, p);
    }
  }

  lemma Swap10Sum(d: Digits, s: string, p: nat, q: nat)
    requires p < q < |s| == 10 && d.isDigit(s[p]) && d.isDigit(s[q])
    ensures Sum10(d, Swapped(s, p, q), 10)
         == Sum10(d, s, 10) + (q - p) * (Value10(d, p, s[p]) - Value10(d, q, s[q]))
  {
    Sum10Change(d, s, p, s[q], 10);
    Sum10Change(d, s[p := s[q]], q, s[p], 10);
    SwapSum(p + 1, q + 1, d.value(s[p]), d.value(s[q]));
  }

  lemma SwapSum(v: int, w: int, a: int, b: int)
    ensures v * (b - a) + w * (a - b) == (w - v) * (a - b)
  {
  }

  /** A swap in a valid ISBN-13 goes unnoticed exactly if the positions have the same weight or the values
      are equal or differ by 5. */
  lemma Swap13(d: Digits, s: string, p: nat, q: nat)
    requires d.Lawful() && Valid13(d, s) && p < q < 13
    ensures Valid13(d, Swapped(s, p, q)) <==>
            p % 2 == q % 2 || (Value13(d, p, s[p]) - Value13(d, q, s[q])) % 5 == 0
  {
    var t, a, b := Swapped(s, p, q), Value13(d, p, s[p]), Value13(d, q, s[q]);
    forall i | 0 <= i < 13 ensures Value13(d, i, t[i]) >= 0 {
      assert Value13(d, i, s[i]) >= 0 && a >= 0 && b >= 0;
    }
    Sum13Change(d, s, p, s[q], 13);
    Sum13Change(d, s[p := s[q]], q, s[p], 13);
    Swap13Weights(Weight13(p), Weight13(q), a, b, Sum13(d, s, 13), Sum13(d, t, 13));
  }

  lemma Swap13Weights(v: int, w: int, a: int, b: int, before: int, after: int)
    requires v in {1, 3} && w in {1, 3} && before % 10 == 0
    requires after == before + v * (b - a) + w * (a - b)
    ensures after % 10 == 0 <==> v == w || (a - b) % 5 == 0
  {
    if v == w {
      assert after == before;
    } else if v == 1 {
      assert after == before + 2 * (a - b);
    } else {
      assert after == before - 2 * (a - b);
    }
  }

  // ---------- The same on the text as typed ----------

  /** Where the p-th character of a text ends up after cleaning. */
  function CleanIndex(s: string, p: nat): (k: nat)
    requires p < |s|
  {
    if p == 0 then 0 else CleanIndex(s[1..], p - 1) + if Separator(s[0]) then 0 else 1
  }

  lemma {:induction false} CleanChange(s: string, p: nat, c: char)
    requires p < |s| && !Separator(s[p]) && !Separator(c)
    ensures CleanIndex(s, p) < |Cleaned(s)| && Cleaned(s)[CleanIndex(s, p)] == s[p]
    ensures Cleaned(s[p := c]) == Cleaned(s)[CleanIndex(s, p) := c]
  {
    if p > 0 {
      CleanChange(s[1..], p - 1, c);
      assert s[p := c][1..] == s[1..][p - 1 := c];
    } else {
      assert s[p := c][1..] == s[1..];
    }
  }

  lemma {:induction false} CleanShorter(s: string, p: nat, c: char)
    requires p < |s| && !Separator(s[p]) && Separator(c)
    ensures |Cleaned(s[p := c])| == |Cleaned(s)| - 1
  {
    if p > 0 {
      CleanShorter(s[1..], p - 1, c);
      assert s[p := c][1..] == s[1..][p - 1 := c];
    } else {
      assert s[p := c][1..] == s[1..];
    }
  }

  lemma {:induction false} CleanIndexChange(s: string, p: nat, c: char, q: nat)
    requires p < |s| && q < |s| && !Separator(s[p]) && !Separator(c)
    ensures CleanIndex(s[p := c], q) == CleanIndex(s, q)
  {
    if q > 0 {
      if p > 0 {
        CleanIndexChange(s[1..], p - 1, c, q - 1);
        assert s[p := c][1..] == s[1..][p - 1 := c];
      } else {
        assert s[p := c][1..] == s[1..];
      }
    }
  }

  lemma {:induction false} CleanIndexMonotone(s: string, p: nat, q: nat)
    requires p < q < |s| && !Separator(s[p])
    ensures CleanIndex(s, p) < CleanIndex(s, q)
  {
    if p > 0 {
      CleanIndexMonotone(s[1..], p - 1, q - 1);
    }
  }

  /** The value a character has in a valid ISBN as typed, by the length of what is left after cleaning. */
  function ValueAt(d: Digits, isbn: string, p: nat, c: char): int
    requires p < |isbn|
  {
    if |Cleaned(isbn)| == 10 then Value10(d, CleanIndex(isbn, p), c) else Value13(d, CleanIndex(isbn, p), c)
  }

  /** In any valid text, with any hyphens and spaces, replacing one significant character by any other
      character is accepted exactly if the value stays the same. */
  lemma EverySingleErrorIsCaught(d: Digits, isbn: string, p: nat, c: char)
    requires d.Lawful() && Valid(d, isbn) && p < |isbn| && !Separator(isbn[p])
    ensures Valid(d, isbn[p := c]) <==> !Separator(c) && ValueAt(d, isbn, p, c) == ValueAt(d, isbn, p, isbn[p])
  {
    hide Sum10, Sum13, Value10, Value13, Cleaned, CleanIndex;
    if Separator(c) {
      CleanShorter(isbn, p, c);
    } else {
      CleanChange(isbn, p, c);
      if |Cleaned(isbn)| == 10 {
        Change10(d, Cleaned(isbn), CleanIndex(isbn, p), c);
      } else {
        Change13(d, Cleaned(isbn), CleanIndex(isbn, p), c);
      }
    }
  }

  lemma CleanSwap(s: string, p: nat, q: nat)
    requires p < q < |s| && !Separator(s[p]) && !Separator(s[q])
    ensures CleanIndex(s, p) < CleanIndex(s, q) < |Cleaned(s)|
    ensures Cleaned(s)[CleanIndex(s, p)] == s[p] && Cleaned(s)[CleanIndex(s, q)] == s[q]
    ensures Cleaned(Swapped(s, p, q)) == Swapped(Cleaned(s), CleanIndex(s, p), CleanIndex(s, q))
  {
    CleanIndexMonotone(s, p, q);
    CleanChange(s, p, s[q]);
    CleanChange(s, q, s[q]);
    CleanIndexChange(s, p, s[q], q);
    CleanChange(s[p := s[q]], q, s[p]);
  }

  /** Which swaps of two significant characters of a valid text go unnoticed: with ten characters, only those
      of equal digits; with thirteen, those of equal weight and those whose values are equal or differ by 5. */
  lemma WhichSwapsAreMissed(d: Digits, isbn: string, p: nat, q: nat)
    requires d.Lawful() && Valid(d, isbn) && p < q < |isbn| && !Separator(isbn[p]) && !Separator(isbn[q])
    ensures var a, b := ValueAt(d, isbn, p, isbn[p]), ValueAt(d, isbn, q, isbn[q]);
      Valid(d, Swapped(isbn, p, q)) <==>
        if |Cleaned(isbn)| == 10 then a == b && d.isDigit(isbn[q])
        else CleanIndex(isbn, p) % 2 == CleanIndex(isbn, q) % 2 || (a - b) % 5 == 0
  {
    hide Sum10, Sum13, Value10, Value13, Cleaned, CleanIndex;
    CleanSwap(isbn, p, q);
    if |Cleaned(isbn)| == 10 {
      Swap10(d, Cleaned(isbn), CleanIndex(isbn, p), CleanIndex(isbn, q));
    } else {
      Swap13(d, Cleaned(isbn), CleanIndex(isbn, p), CleanIndex(isbn, q));
    }
  }

  /** Neighbouring unequal digits of an ISBN-13: the swap is missed exactly when they differ by 5. */
  lemma AdjacentSwap13(d: Digits, s: string, p: nat)
    requires d.Lawful() && Valid13(d, s) && p + 1 < 13 && Value13(d, p, s[p]) != Value13(d, p + 1, s[p + 1])
    ensures Valid13(d, Swapped(s, p, p + 1)) <==>
            Value13(d, p, s[p]) - Value13(d, p + 1, s[p + 1]) == 5
                || Value13(d, p + 1, s[p + 1]) - Value13(d, p, s[p]) == 5
  {
    Swap13(d, s, p, p + 1);
    assert Value13(d, p, s[p]) >= 0 && Value13(d, p + 1, s[p + 1]) >= 0;
  }
}
