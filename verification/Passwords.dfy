/** Salted passwords: what is stored, and what a stored text accepts. */
module Passwords {
  import opened Search

  /** The digest (hex text) and the answer normalisation are the platform's. */
  datatype Crypto = Crypto(sha256: string -> string, normal: string -> string) {
    ghost predicate Lawful() {
      forall a, b :: sha256(a) == sha256(b) ==> a == b
    }

    /** Digests are hexadecimal. */
    ghost predicate Hexadecimal() {
      forall a :: '$' !in sha256(a)
    }
  }

  /** Every character doubled, and '$' spelled with two different ones. */
  function Spelled(s: string): (t: string)
    ensures |t| == 2 * |s| && '$' !in t
  {
    if s == "" then "" else (if s[0] == '$' then "01" else [s[0], s[0]]) + Spelled(s[1..])
  }

  lemma {:induction false} SpelledIsInjective(a: string, b: string)
    requires Spelled(a) == Spelled(b)
    ensures a == b
  {
    if a != "" {
      var s := Spelled(a);
      assert |a| == |b|;
      assert s[2..] == Spelled(a[1..]) && Spelled(b)[2..] == Spelled(b[1..]);
      SpelledIsInjective(a[1..], b[1..]);
      assert s[0] == Spelled(b)[0] && s[1] == Spelled(b)[1];
      assert a == [a[0]] + a[1..] && b == [b[0]] + b[1..];
    }
  }

  /** The two assumptions on the digest can be met together. */
  lemma IdealDigestExists()
    ensures exists c: Crypto :: c.Lawful() && c.Hexadecimal()
  {
    var c := Crypto(Spelled, s => s);
    forall a, b | c.sha256(a) == c.sha256(b) ensures a == b {
      SpelledIsInjective(a, b);
    }
    assert c.Lawful() && c.Hexadecimal();
  }

  const UPPER := "ABCDEFGHIJKLMNOPQRSTUVWXYZ"
  const LOWER := "abcdefghijklmnopqrstuvwxyz"
  const DIGITS := "0123456789"

  lemma NoSeparator()
    ensures '$' !in UPPER + LOWER + DIGITS
  {
    assert '$' !in UPPER;
    assert '$' !in LOWER;
    assert '$' !in DIGITS;
  }

  /** Draws a string from the letters, or from the letters and digits; the draws come from the random generator. */
  method GenerateRandomString(draws: seq<nat>, includeDigits: bool) returns (result: string)
    requires forall i :: 0 <= i < |draws| ==> draws[i] < if includeDigits then 62 else 52
    ensures |result| == |draws| && '$' !in result
    ensures |UPPER + LOWER + DIGITS| == 62
    ensures forall i :: 0 <= i < |draws| ==> result[i] == (UPPER + LOWER + DIGITS)[draws[i]]
  {
    var chars := UPPER + LOWER + if includeDigits then DIGITS else "";
    NoSeparator();
    result := "";
    for i := 0 to |draws|
      invariant |result| == i && '$' !in result
      invariant forall j :: 0 <= j < i ==> result[j] == (UPPER + LOWER + DIGITS)[draws[j]]
    {
      assert chars[draws[i]] == (UPPER + LOWER + DIGITS)[draws[i]];
      result := result + [chars[draws[i]]];
    }
  }

  function IndexOf(s: string, c: char): (i: nat)
    ensures i <= |s|
    ensures i < |s| ==> s[i] == c
    ensures c !in s[..i]
  {
    FirstIndex(s, x => x == c)
  }

  function Hash(c: Crypto, salt: string, plain: string): string {
    salt + "$" + c.sha256(salt + plain)
  }

  predicate Verify(c: Crypto, plain: string, stored: string) {
    var at := IndexOf(stored, '$');
    at < |stored| && c.sha256(stored[..at] + plain) == stored[at + 1..]
  }

  lemma SplitAtDollar(salt: string, digest: string)
    requires '$' !in salt
    ensures IndexOf(salt + "$" + digest, '$') == |salt|
    ensures (salt + "$" + digest)[..|salt|] == salt && (salt + "$" + digest)[|salt| + 1..] == digest
  {
    var stored := salt + "$" + digest;
    var at := IndexOf(stored, '$');
    assert stored[|salt|] == '$';
    assert forall i :: 0 <= i < |salt| ==> stored[i] == salt[i];
  }

  /** A stored password accepts exactly the password it was made from. */
  lemma OnlyThatPassword(c: Crypto, salt: string, plain: string, attempt: string)
    requires c.Lawful() && '$' !in salt
    ensures Verify(c, attempt, Hash(c, salt, plain)) <==> attempt == plain
  {
    SplitAtDollar(salt, c.sha256(salt + plain));
    if c.sha256(salt + attempt) == c.sha256(salt + plain) {
      assert (salt + attempt)[|salt|..] == attempt && (salt + plain)[|salt|..] == plain;
    }
  }

  /** A stored text accepts a password exactly if it is some salt without a separator, the separator, and the digest of
      that salt followed by the password. */
  lemma WhatIsAccepted(c: Crypto, plain: string, stored: string)
    ensures Verify(c, plain, stored) <==>
            exists salt :: '$' !in salt && stored == salt + "$" + c.sha256(salt + plain)
  {
    var at := IndexOf(stored, '$');
    if Verify(c, plain, stored) {
      assert stored == stored[..at] + "$" + stored[at + 1..];
    }
    forall salt | '$' !in salt && stored == salt + "$" + c.sha256(salt + plain) ensures Verify(c, plain, stored) {
      SplitAtDollar(salt, c.sha256(salt + plain));
    }
  }

  /** Under different salts, or for different passwords, different texts are stored. */
  lemma StoredTextsDiffer(c: Crypto, salt: string, plain: string, otherSalt: string, other: string)
    requires c.Lawful() && '$' !in salt && '$' !in otherSalt
    ensures Hash(c, salt, plain) == Hash(c, otherSalt, other) <==> salt == otherSalt && plain == other
  {
    if Hash(c, salt, plain) == Hash(c, otherSalt, other) {
      SplitAtDollar(salt, c.sha256(salt + plain));
      SplitAtDollar(otherSalt, c.sha256(otherSalt + other));
      OnlyThatPassword(c, salt, plain, other);
    }
  }

  /** That the salt has no separator is needed: with one, no password at all is accepted. */
  lemma SeparatorInSaltLocksOut(c: Crypto, salt: string, plain: string, attempt: string)
    requires c.Hexadecimal() && '$' in salt
    ensures !Verify(c, attempt, Hash(c, salt, plain))
  {
    var stored := Hash(c, salt, plain);
    var at := IndexOf(stored, '$');
    var k :| 0 <= k < |salt| && salt[k] == '$';
    assert stored[k] == '$';
    assert stored[|salt|] == '$' && stored[at + 1..][|salt| - at - 1] == '$';
  }
}
