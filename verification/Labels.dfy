/**
 Channel labels: 1 to 6 characters of [A-Za-z0-9], case-insensitive, packed into a
 32-bit channel ID in bijective base 36 (session.go). ID 0 is the session itself.
 */
module Labels {

  const MaxId := 2238976116
  const MaxLen := 6
  const TwoTo32 := 0x1_0000_0000

  predicate Letter(c: char) {
    '0' <= c <= '9' || 'a' <= c <= 'z' || 'A' <= c <= 'Z'
  }

  predicate Letters(s: string) {
    forall i :: 0 <= i < |s| ==> Letter(s[i])
  }

  function Val(c: char): (v: nat)
    requires Letter(c)
    ensures v < 36
  {
    if c <= '9' then (c - '0') as nat
    else if 'a' <= c then (c - 'a') as nat + 10
    else (c - 'A') as nat + 10
  }

  function Digit(v: nat): (c: char)
    requires v < 36
    ensures Letter(c) && Val(c) == v && Lower(c) == c
  {
    if v < 10 then '0' + v as char else 'a' + (v - 10) as char
  }

  function Lower(c: char): char {
    if 'A' <= c <= 'Z' then c - 'A' + 'a' else c
  }

  function Lowered(s: string): string {
    seq(|s|, i requires 0 <= i < |s| => Lower(s[i]))
  }

  /** The ID of a label, most significant character first. */
  function Code(s: string): nat
    requires Letters(s)
  {
    if s == [] then 0 else 36 * Code(s[..|s| - 1]) + Val(s[|s| - 1]) + 1
  }

  /** Digits come first, then letters of either case, counted from one. */
  lemma OneCharacter(c: char)
    ensures '0' <= c <= '9' ==> Letters([c]) && Code([c]) == (c - '0') as nat + 1
    ensures 'a' <= c <= 'z' ==> Letters([c]) && Code([c]) == (c - 'a') as nat + 11
    ensures 'A' <= c <= 'Z' ==> Letters([c]) && Code([c]) == (c - 'A') as nat + 11
    ensures Letters([c]) ==> 1 <= Code([c]) <= 36
    ensures c < '0' || '9' < c < 'A' || 'Z' < c < 'a' || 'z' < c ==> !Letters([c])
  {
    assert Letters([c]) == Letter(c) by { assert [c][0] == c; }
    assert [c][..0] == [];
    assert Code([]) == 0;
  }

  /** A longer label is read in base 36, most significant character first. */
  lemma OneMoreCharacter(s: string, c: char)
    requires Letters(s) && Letter(c)
    ensures Letters(s + [c]) && Letters([c]) && Code(s + [c]) == 36 * Code(s) + Code([c])
  {
    assert (s + [c])[..|s|] == s;
    assert [c][..0] == [];
    assert Code([]) == 0;
  }

  /** The label of an ID. */
  function Spell(n: nat): (s: string)
    ensures Letters(s) && Lowered(s) == s
  {
    if n == 0 then [] else Spell((n - 1) / 36) + [Digit((n - 1) % 36)]
  }

  /** The highest ID of labels of k characters. */
  function Highest(k: nat): nat {
    if k == 0 then 0 else 36 * Highest(k - 1) + 36
  }

  lemma HighestOfSix()
    ensures Highest(MaxLen) == MaxId < TwoTo32
  {
    assert Highest(1) == 36;
    assert Highest(2) == 1332;
    assert Highest(3) == 47988;
    assert Highest(4) == 1727604;
    assert Highest(5) == 62193780;
  }

  lemma {:induction false} CodeBound(s: string)
    requires Letters(s)
    ensures Code(s) <= Highest(|s|) && (s != [] ==> Code(s) >= 1)
  {
    if s != [] {
      CodeBound(s[..|s| - 1]);
    }
  }

  lemma {:induction false} HighestGrows(j: nat, k: nat)
    requires j <= k
    ensures Highest(j) <= Highest(k)
    decreases k - j
  {
    if j < k {
      HighestGrows(j + 1, k);
    }
  }

  /** Encoding then decoding gives the ID back, and the only labels of an ID are the
      spellings that differ in case. */
  lemma {:induction false} CodeOfSpell(n: nat)
    ensures Code(Spell(n)) == n
  {
    if n > 0 {
      CodeOfSpell((n - 1) / 36);
      var s, c := Spell((n - 1) / 36), Digit((n - 1) % 36);
      assert (s + [c])[..|s + [c]| - 1] == s;
    }
  }

  lemma SplitDigit(high: nat, low: nat)
    requires low < 36
    ensures (36 * high + low) / 36 == high && (36 * high + low) % 36 == low
  {
  }

  lemma {:induction false} SpellOfCode(s: string)
    requires Letters(s)
    ensures Spell(Code(s)) == Lowered(s)
  {
    if s != [] {
      var t, c := s[..|s| - 1], s[|s| - 1];
      SpellOfCode(t);
      SpellSnoc(Code(t), c);
      assert Lowered(s) == Lowered(t) + [Lower(c)];
      hide Spell;
    }
  }

  lemma SpellSnoc(n: nat, c: char)
    requires Letter(c)
    ensures Spell(36 * n + Val(c) + 1) == Spell(n) + [Lower(c)]
  {
    SplitDigit(n, Val(c));
    assert Digit(Val(c)) == Lower(c);
  }

  /** Two labels share an ID exactly when they differ only in case. */
  lemma SameIdIffSameLetters(s: string, t: string)
    requires Letters(s) && Letters(t)
    ensures Code(s) == Code(t) <==> Lowered(s) == Lowered(t)
  {
    SpellOfCode(s);
    SpellOfCode(t);
    CodeOfSpell(Code(s));
    CodeOfSpell(Code(t));
  }

  /** IDs from 1 to MaxId are exactly the labels of 1 to 6 characters. */
  lemma {:induction false} SpellLength(n: nat, k: nat)
    ensures n <= Highest(k) <==> |Spell(n)| <= k
    decreases n
  {
    if n > 0 && k > 0 {
      SpellLength((n - 1) / 36, k - 1);
    }
  }

  /** Pack a label; false for anything but 1 to 6 letters and digits. No step leaves 32 bits. */
  method StringToUint32(s: string) returns (n: nat, ok: bool)
    ensures ok <==> 1 <= |s| <= MaxLen && Letters(s)
    ensures ok ==> 1 <= n <= MaxId && Lowered(s) == Spell(n)
    ensures ok ==> n == Code(s)
    ensures !ok ==> n == 0
  {
    if |s| == 0 || |s| > MaxLen {
      return 0, false;
    }
    HighestOfSix();
    n := 0;
    for i := 0 to |s|
      invariant Letters(s[..i]) && n == Code(s[..i]) <= Highest(i)
    {
      if !Letter(s[i]) {
        return 0, false;
      }
      assert s[..i + 1][..i] == s[..i];
      CodeBound(s[..i + 1]);
      HighestGrows(i + 1, MaxLen);
      assert 36 * n + Val(s[i]) + 1 < TwoTo32;
      n := 36 * n + Val(s[i]) + 1;
    }
    assert s[..|s|] == s;
    CodeBound(s);
    HighestGrows(|s|, MaxLen);
    SpellOfCode(s);
    ok := true;
  }

  method PutChar(buf: array<char>, k: nat, c: char)
    requires k < buf.Length
    modifies buf
    ensures buf[k..] == [c] + old(buf[k + 1..])
  {
    buf[k] := c;
  }

  /** Writes the characters of an ID from the buffer's end. */
  method Fill(buf: array<char>, id: nat) returns (idx: nat)
    requires id <= Highest(buf.Length)
    modifies buf
    ensures idx <= buf.Length && buf[idx..] == Spell(id)
  {
    SpellEnds(id);
    hide Spell, Highest, Digit, Lower, Val;
    idx := buf.Length;
    var n: nat := id;
    assert Spell(n) + buf[idx..] == Spell(id);
    while n > 0
      invariant idx <= buf.Length && n <= Highest(idx)
      invariant Spell(n) + buf[idx..] == Spell(id)
      decreases n
    {
      OneDigit(n, idx, buf[idx..]);
      idx := idx - 1;
      PutChar(buf, idx, Digit((n - 1) % 36));
      n := (n - 1) / 36;
    }
    assert [] + buf[idx..] == buf[idx..];
  }

  /** Unpack an ID into a six-character buffer, filled from its end. */
  method Uint32ToString(id: nat) returns (s: string, ok: bool)
    ensures ok <==> 1 <= id <= MaxId
    ensures ok ==> 1 <= |s| <= MaxLen && Letters(s) && Code(s) == id && s == Spell(id)
    ensures !ok ==> s == []
  {
    if id == 0 || id > MaxId {
      return [], false;
    }
    HighestOfSix();
    SpellEnds(id);
    CodeOfSpell(id);
    hide Spell, Code, Highest;
    var buf := new char[MaxLen](_ => '0');
    var idx := Fill(buf, id);
    s, ok := buf[idx..], true;
  }

  lemma SpellEnds(n: nat)
    ensures Spell(0) == [] && (n > 0 ==> Spell(n) != [])
  {
  }

  /** Peeling off one digit stays within the buffer and keeps the label. */
  lemma OneDigit(n: nat, k: nat, rest: string)
    requires 0 < n <= Highest(k)
    ensures k > 0 && (n - 1) / 36 <= Highest(k - 1)
    ensures Spell((n - 1) / 36) + ([Digit((n - 1) % 36)] + rest) == Spell(n) + rest
  {
  }
}
