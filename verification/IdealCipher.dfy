/** That the cipher the history file's theorems ask for can exist. */
module IdealCipher {
  import opened Wrappers
  import opened HistoryFile

  /** The offset and the bytes, spelled in letters no newline is among, with
      an end that stands nowhere else. */
  function Spell(at: nat, plain: Bytes): Bytes {
    LINE_PREFIX + Ones(at) + [2] + Digits(plain) + [3]
  }

  function Ones(n: nat): (r: Bytes)
    ensures |r| == n && forall b | b in r :: b == 1
  {
    if n == 0 then [] else [1] + Ones(n - 1)
  }

  function LeadingOnes(s: Bytes): nat {
    if s != [] && s[0] == 1 then 1 + LeadingOnes(s[1..]) else 0
  }

  lemma {:induction false} LeadingOnesOf(n: nat, rest: Bytes)
    requires rest != [] && rest[0] != 1
    ensures LeadingOnes(Ones(n) + rest) == n
  {
    if n == 0 {
      assert Ones(n) + rest == rest;
    } else {
      LeadingOnesOf(n - 1, rest);
      assert (Ones(n) + rest)[1..] == Ones(n - 1) + rest;
    }
  }

  function Digits(plain: Bytes): (r: Bytes)
    ensures |r| == 2 * |plain|
    ensures forall b | b in r :: 32 <= b < 48
  {
    if plain == [] then []
    else
      var last := plain[|plain| - 1];
      Digits(plain[..|plain| - 1]) + [32 + last / 16, 32 + last % 16]
  }

  lemma {:induction false} DigitsInjective(a: Bytes, b: Bytes)
    requires Digits(a) == Digits(b)
    ensures a == b
  {
    assert |a| == |b|;
    if a != [] {
      var n := |a| - 1;
      var p, q := Digits(a[..n]), Digits(b[..n]);
      assert p == Digits(a)[..2 * n] == Digits(b)[..2 * n] == q;
      assert Digits(a)[2 * n] == Digits(b)[2 * n] && Digits(a)[2 * n + 1] == Digits(b)[2 * n + 1];
      assert a[n] == b[n];
      DigitsInjective(a[..n], b[..n]);
      assert a == a[..n] + [a[n]] && b == b[..n] + [b[n]];
    }
  }

  lemma {:induction false} SpellParts(at: nat, plain: Bytes)
    ensures var s := Spell(at, plain);
            && |s| == at + 6 + 2 * |plain| && Sealed(s)
            && LeadingOnes(s[4..]) == at
            && s[at + 5..|s| - 1] == Digits(plain) && s[|s| - 1] == 3
            && 3 !in s[..|s| - 1] && NEWLINE !in s[..|s| - 1]
  {
    var s := Spell(at, plain);
    assert s[..4] == LINE_PREFIX;
    var rest := [2] + Digits(plain) + [3];
    LeadingOnesOf(at, rest);
    assert s[4..] == Ones(at) + rest;
    assert s[..|s| - 1] == LINE_PREFIX + Ones(at) + [2] + Digits(plain);
  }

  lemma {:induction false} SpellInjective(at: nat, plain: Bytes, at': nat, plain': Bytes)
    requires Spell(at, plain) == Spell(at', plain')
    ensures at == at' && plain == plain'
  {
    SpellParts(at, plain);
    SpellParts(at', plain');
    DigitsInjective(plain, plain');
  }

  ghost predicate Spells(at: nat, line: Bytes) {
    exists plain: Bytes :: line == Spell(at, plain)
  }

  ghost function Unspell(at: nat, line: Bytes): Option<Bytes> {
    if Spells(at, line) then var plain :| line == Spell(at, plain); Some(plain) else None
  }

  /** Nothing was sealed before offsets were bound in. */
  function NoneUnbound(line: Bytes): Option<Bytes> {
    None
  }

  /** JSON objects start with a brace. */
  predicate StartsBrace(plain: Bytes) {
    plain != [] && plain[0] == 123
  }

  ghost function Spelling(): LineCipher {
    LineCipher(Spell, Unspell, NoneUnbound, StartsBrace)
  }

  lemma {:induction false} SpellingOpens(at: nat, plain: Bytes, other: nat)
    ensures Unspell(at, Spell(at, plain)) == Some(plain)
    ensures other != at ==> Unspell(other, Spell(at, plain)).None?
  {
    var line := Spell(at, plain);
    assert Spells(at, line);
    var chosen := Unspell(at, line).value;
    SpellInjective(at, plain, at, chosen);
    if Spells(other, line) {
      var p :| line == Spell(other, p);
      SpellInjective(at, plain, other, p);
    }
  }

  lemma {:induction false} SpellsEnds(at: nat, line: Bytes)
    ensures Spells(at, line) ==> line != [] && line[|line| - 1] == 3
  {
    if Spells(at, line) {
      var plain :| line == Spell(at, plain);
      SpellParts(at, plain);
    }
  }

  lemma {:induction false} PieceNeverSpells(at: nat, plain: Bytes, k: nat, other: nat)
    requires k < |Spell(at, plain)|
    ensures !Spells(other, Spell(at, plain)[..k])
  {
    SpellParts(at, plain);
    var s := Spell(at, plain);
    SpellsEnds(other, s[..k]);
    assert k > 0 ==> s[..k][k - 1] in s[..|s| - 1];
  }

  lemma {:induction false} PieceNeverReads(at: nat, plain: Bytes, k: nat)
    requires k < |Spell(at, plain)|
    ensures NeverReads(Spelling(), Spell(at, plain)[..k])
  {
    var piece := Spell(at, plain)[..k];
    assert k > 0 ==> piece[0] == LINE_PREFIX[0];
    forall other: nat ensures ReadLine(Spelling(), other, piece) == Unreadable(piece) {
      PieceNeverSpells(at, plain, k, other);
    }
  }

  lemma {:induction false} SpellingIsIdeal()
    ensures Ideal(Spelling()) && PiecesStayShut(Spelling()) && Spelling().parses([123])
  {
    var c := Spelling();
    forall at: nat, plain: Bytes
      ensures var line := c.seal(at, plain);
              && Sealed(line) && NEWLINE !in line && c.openUnbound(line).None?
              && c.openAt(at, line) == Some(plain)
              && forall other: nat | other != at :: c.openAt(other, line).None?
    {
      SpellParts(at, plain);
      SpellingOpens(at, plain, at + 1);
      forall other: nat | other != at ensures c.openAt(other, c.seal(at, plain)).None? {
        SpellingOpens(at, plain, other);
      }
    }
    forall at: nat, plain: Bytes, k: nat | k < |c.seal(at, plain)| ensures NeverReads(c, c.seal(at, plain)[..k]) {
      PieceNeverReads(at, plain, k);
    }
    forall at: nat, plain: Bytes, k: nat, other: nat | |LINE_PREFIX| <= k < |c.seal(at, plain)|
      ensures c.openAt(other, c.seal(at, plain)[..k]).None?
    {
      PieceNeverSpells(at, plain, k, other);
    }
  }
}
