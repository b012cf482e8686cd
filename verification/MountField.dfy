/** Fields of a mountinfo line: decoding the kernel's octal escapes.  Positions behind the end of the
    line read as NUL, and a NUL ends the line wherever it stands. */
module MountField {
  import opened Bytes

  datatype Field = NoField | Field(value: Text, rest: Text)

  predicate IsBlank(c: Byte) {
    c == SPACE || c == TAB
  }

  predicate EndsField(c: Byte) {
    c == 0 || IsBlank(c)
  }

  predicate IsOctal(c: Byte) {
    48 <= c <= 55
  }

  function CharAt(t: Text, i: nat): Byte {
    if i < |t| then t[i] else 0
  }

  /** Three octal digits behind a backslash. */
  predicate OctalAhead(t: Text) {
    CharAt(t, 0) == BACKSLASH && IsOctal(CharAt(t, 1)) && IsOctal(CharAt(t, 2)) && IsOctal(CharAt(t, 3))
  }

  function OctalValue(t: Text): nat
    requires OctalAhead(t)
  {
    (t[1] as int - 48) * 64 + (t[2] as int - 48) * 8 + (t[3] as int - 48)
  }

  /** An escape stands for a byte; a larger octal number is taken literally. */
  predicate EscapeAhead(t: Text) {
    OctalAhead(t) && OctalValue(t) < 256
  }

  function SkipBlanks(t: Text): (r: Text)
    ensures |r| <= |t| && (r != [] ==> !IsBlank(r[0]))
  {
    if t != [] && IsBlank(t[0]) then SkipBlanks(t[1..]) else t
  }

  /** The bytes up to the next blank or NUL with every escape replaced by its byte, and what follows. */
  function Token(t: Text): (r: (Text, Text))
    ensures |r.0| + |r.1| <= |t|
    ensures EndsField(CharAt(r.1, 0))
  {
    if EndsField(CharAt(t, 0)) then ([], t)
    else if EscapeAhead(t) then
      var more := Token(t[4..]);
      ([OctalValue(t)] + more.0, more.1)
    else
      var more := Token(t[1..]);
      ([t[0]] + more.0, more.1)
  }

  /** No field is left only where nothing but blanks precedes the end of the line. */
  function ParseField(t: Text): (f: Field)
    ensures f.Field? ==> |f.rest| < |t| && f.value != []
  {
    var u := SkipBlanks(t);
    if CharAt(u, 0) == 0 then NoField
    else
      var r := Token(u);
      Field(r.0, r.1)
  }

  // ---- Fields, byte by byte ---------------------------------------------------------------------------

  /** NUL, tab and blank end a field; every other byte but a backslash stands for itself. */
  lemma TokenByBytes(t: Text)
    ensures t == [] || t[0] == 0 || t[0] == 9 || t[0] == 32 ==> Token(t) == ([], t)
    ensures t != [] && t[0] != 0 && t[0] != 9 && t[0] != 32 && t[0] != 92 ==>
      Token(t) == ([t[0]] + Token(t[1..]).0, Token(t[1..]).1)
  {
  }

  /** A backslash with three digits below eight stands for the byte with that octal number, if there is
      one, and for itself otherwise. */
  lemma TokenOfOctal(a: nat, b: nat, c: nat, rest: Text)
    requires a < 8 && b < 8 && c < 8
    ensures var t, n := [92, 48 + a, 48 + b, 48 + c] + rest, 64 * a + 8 * b + c;
      && (n < 256 ==> Token(t) == ([n] + Token(rest).0, Token(rest).1))
      && (n >= 256 ==> Token(t) == ([92] + Token(t[1..]).0, Token(t[1..]).1))
  {
    var t: Text := [92, 48 + a, 48 + b, 48 + c] + rest;
    assert t[0] == 92 && t[1] == 48 + a && t[2] == 48 + b && t[3] == 48 + c;
    assert t[4..] == rest;
  }

  /** Without three such digits behind it, a backslash stands for itself. */
  lemma TokenOfBackslash(t: Text)
    requires t != [] && t[0] == 92
    requires |t| < 4 || !(48 <= t[1] <= 55) || !(48 <= t[2] <= 55) || !(48 <= t[3] <= 55)
    ensures Token(t) == ([92] + Token(t[1..]).0, Token(t[1..]).1)
  {
  }

  /** Blanks and tabs in front of a field are skipped; there is no field where a line ends. */
  lemma {:induction false} ParseBehindBlanks(blanks: Text, t: Text)
    requires forall i | 0 <= i < |blanks| :: blanks[i] == 9 || blanks[i] == 32
    requires t == [] || (t[0] != 9 && t[0] != 32)
    ensures ParseField(blanks + t) == if t == [] || t[0] == 0 then NoField else Field(Token(t).0, Token(t).1)
  {
    hide Token;
    if blanks == [] {
      assert blanks + t == t;
    } else {
      assert (blanks + t)[1..] == blanks[1..] + t;
      ParseBehindBlanks(blanks[1..], t);
    }
  }

  // ---- The cursor loop ------------------------------------------------------------------------------

  lemma DropMore(line: Text, i: nat, n: nat)
    requires i + n <= |line|
    ensures line[i..][n..] == line[i + n..]
  {
  }

  /** One round of skipping, and the end of it. */
  lemma SkipOne(line: Text, i: nat)
    requires i <= |line|
    ensures CharAt(line, i) == CharAt(line[i..], 0)
    ensures IsBlank(CharAt(line, i)) ==> i < |line| && SkipBlanks(line[i..]) == SkipBlanks(line[i + 1..])
    ensures !IsBlank(CharAt(line, i)) ==> SkipBlanks(line[i..]) == line[i..]
  {
    if i < |line| {
      DropMore(line, i, 1);
    }
  }

  /** One round of decoding: an escape takes four bytes, anything else one. */
  lemma TokenOne(line: Text, i: nat)
    requires i <= |line|
    ensures var t := Token(line[i..]);
      if EndsField(CharAt(line, i)) then t == ([], line[i..])
      else if EscapeAhead(line[i..]) then
        i + 4 <= |line| && t == ([OctalValue(line[i..])] + Token(line[i + 4..]).0, Token(line[i + 4..]).1)
      else i < |line| && t == ([line[i]] + Token(line[i + 1..]).0, Token(line[i + 1..]).1)
  {
    hide OctalAhead, OctalValue;
    if !EndsField(CharAt(line, i)) {
      DropMore(line, i, 1);
      if EscapeAhead(line[i..]) {
        EscapeIsLong(line[i..]);
        DropMore(line, i, 4);
      }
    }
  }

  lemma EscapeIsLong(t: Text)
    requires EscapeAhead(t)
    ensures |t| >= 4
  {
  }

  /** The test of the loop body on the bytes under the cursor. */
  lemma EscapeUnderCursor(line: Text, i: nat)
    requires i <= |line|
    ensures OctalAhead(line[i..]) <==>
      && CharAt(line, i) == BACKSLASH
      && IsOctal(CharAt(line, i + 1)) && IsOctal(CharAt(line, i + 2)) && IsOctal(CharAt(line, i + 3))
    ensures OctalAhead(line[i..]) ==> i + 4 <= |line|
    ensures OctalAhead(line[i..]) ==>
      OctalValue(line[i..])
        == (line[i + 1] as int - 48) * 64 + (line[i + 2] as int - 48) * 8 + (line[i + 3] as int - 48)
  {
  }

  lemma Appended(a: Text, b: Text, c: Text)
    ensures (a + b) + c == a + (b + c) && [] + c == c && a + [] == a
  {
  }

  /** Returns false and leaves the cursor where it was when no field is left; otherwise decodes one field
      and leaves the cursor on the separator or end behind it. */
  method ParseMountString(line: Text, cursor: nat) returns (ok: bool, dest: Text, cursor': nat)
    requires cursor <= |line|
    ensures cursor <= cursor' <= |line|
    ensures var f := ParseField(line[cursor..]);
      && ok == f.Field?
      && (ok ==> dest == f.value && line[cursor'..] == f.rest && EndsField(CharAt(line, cursor')))
      && (!ok ==> cursor' == cursor)
  {
    hide Token, SkipBlanks, OctalAhead, OctalValue;
    var src := cursor;
    dest, cursor' := [], cursor;
    SkipOne(line, src);
    while IsBlank(CharAt(line, src))
      invariant cursor <= src <= |line| && SkipBlanks(line[src..]) == SkipBlanks(line[cursor..])
      decreases |line| - src
    {
      SkipOne(line, src);
      src := src + 1;
    }
    SkipOne(line, src);
    if CharAt(line, src) == 0 {
      return false, dest, cursor';
    }
    dest, src := Decode(line, src);
    SkipOne(line, src);
    return true, dest, src;
  }

  method Decode(line: Text, start: nat) returns (dest: Text, src: nat)
    requires start <= |line|
    ensures start <= src <= |line| && EndsField(CharAt(line, src))
    ensures Token(line[start..]) == (dest, line[src..])
  {
    hide Token, OctalAhead, OctalValue, EndsField;
    dest, src := [], start;
    Appended([], [], Token(line[start..]).0);
    while !EndsField(CharAt(line, src))
      invariant start <= src <= |line|
      invariant Token(line[start..]).0 == dest + Token(line[src..]).0
      invariant Token(line[start..]).1 == Token(line[src..]).1
      decreases |line| - src
    {
      TokenOne(line, src);
      EscapeUnderCursor(line, src);
      if CharAt(line, src) == BACKSLASH && IsOctal(CharAt(line, src + 1)) && IsOctal(CharAt(line, src + 2))
         && IsOctal(CharAt(line, src + 3)) {
        var v := (line[src + 1] as int - 48) * 64 + (line[src + 2] as int - 48) * 8 + (line[src + 3] as int - 48);
        if v <= 255 {
          Appended(dest, [v], Token(line[src + 4..]).0);
          dest, src := dest + [v], src + 4;
          continue;
        }
      }
      Appended(dest, [line[src]], Token(line[src + 1..]).0);
      dest, src := dest + [line[src]], src + 1;
    }
    TokenOne(line, src);
    Appended(dest, [], []);
  }

  // ---- Escaping and back ------------------------------------------------------------------------------

  function OctalDigit(n: nat): Byte {
    48 + n % 8
  }

  function OctalEscape(c: Byte): Text {
    [BACKSLASH, OctalDigit(c / 64), OctalDigit(c / 8), OctalDigit(c)]
  }

  /** Every byte of the set is written as an octal escape, as the kernel does. */
  function Escape(s: Text, escaped: set<Byte>): Text {
    if s == [] then []
    else (if s[0] in escaped then OctalEscape(s[0]) else [s[0]]) + Escape(s[1..], escaped)
  }

  /** The escape sets that lose nothing.  The separators must be covered, and either the escape character
      itself or the four digits an escape can start with. */
  predicate EnoughEscaped(escaped: set<Byte>) {
    && SPACE in escaped && TAB in escaped
    && (BACKSLASH in escaped || (48 in escaped && 49 in escaped && 50 in escaped && 51 in escaped))
  }

  /** What the kernel escapes, blank, tab, newline and backslash, is enough, and this is how it looks. */
  lemma KernelEscapes()
    ensures EnoughEscaped({32, 9, 10, 92})
    ensures OctalEscape(32) == [92, 48, 52, 48] && OctalEscape(9) == [92, 48, 49, 49]
    ensures OctalEscape(10) == [92, 48, 49, 50] && OctalEscape(92) == [92, 49, 51, 52]
  {
  }

  lemma ThreeOctalDigits(c: Byte)
    ensures (c / 64 % 8) * 64 + (c / 8 % 8) * 8 + c % 8 == c
  {
    assert c == 8 * (c / 8) + c % 8;
    assert c / 8 == 8 * (c / 64) + c / 8 % 8;
  }

  lemma EscapeDecodes(c: Byte, t: Text)
    ensures EscapeAhead(OctalEscape(c) + t) && OctalValue(OctalEscape(c) + t) == c
    ensures (OctalEscape(c) + t)[4..] == t
  {
    hide OctalDigit;
    var e := OctalEscape(c) + t;
    DigitIsOctal(c / 64);
    DigitIsOctal(c / 8);
    DigitIsOctal(c);
    assert e[0] == BACKSLASH && e[1] == OctalDigit(c / 64) && e[2] == OctalDigit(c / 8) && e[3] == OctalDigit(c);
    ThreeOctalDigits(c);
  }

  lemma DigitIsOctal(n: nat)
    ensures IsOctal(OctalDigit(n)) && OctalDigit(n) as int - 48 == n % 8
  {
  }

  /** A byte that was left as it is does not start an escape. */
  lemma LiteralIsNoEscape(c: Byte, s: Text, escaped: set<Byte>, rest: Text)
    requires EnoughEscaped(escaped) && c !in escaped && EndsField(CharAt(rest, 0))
    ensures !EscapeAhead([c] + (Escape(s, escaped) + rest))
  {
    var tail := Escape(s, escaped) + rest;
    var t := [c] + tail;
    assert CharAt(t, 0) == c && CharAt(t, 1) == CharAt(tail, 0);
    assert s == [] ==> CharAt(tail, 0) == CharAt(rest, 0);
    assert s != [] ==> CharAt(tail, 0) == if s[0] in escaped then BACKSLASH else s[0];
  }

  lemma TokenOfLiteral(c: Byte, tail: Text)
    requires !EndsField(c) && !EscapeAhead([c] + tail)
    ensures Token([c] + tail) == ([c] + Token(tail).0, Token(tail).1)
  {
    hide OctalAhead;
    assert ([c] + tail)[1..] == tail;
  }

  lemma TokenOfEscape(c: Byte, tail: Text)
    ensures Token(OctalEscape(c) + tail) == ([c] + Token(tail).0, Token(tail).1)
  {
    hide OctalAhead, OctalValue;
    EscapeDecodes(c, tail);
  }

  lemma EscapeOne(s: Text, escaped: set<Byte>)
    ensures Escape(s, escaped) == if s == [] then [] else
      (if s[0] in escaped then OctalEscape(s[0]) else [s[0]]) + Escape(s[1..], escaped)
  {
  }

  lemma NotSpecial(c: Byte, s: Text, escaped: set<Byte>)
    requires EnoughEscaped(escaped) && c !in escaped && c in s && 0 !in s
    ensures !EndsField(c)
  {
  }

  lemma {:induction false} TokenOfEscaped(s: Text, escaped: set<Byte>, rest: Text)
    requires EnoughEscaped(escaped) && 0 !in s && EndsField(CharAt(rest, 0))
    ensures Token(Escape(s, escaped) + rest) == (s, rest)
  {
    hide EscapeAhead, OctalEscape, Token, Escape, EnoughEscaped;
    EscapeOne(s, escaped);
    if s == [] {
      assert Escape(s, escaped) + rest == rest;
      TokenOne(rest, 0);
      assert rest[0..] == rest;
    } else {
      var c, tail := s[0], Escape(s[1..], escaped) + rest;
      TokenOfEscaped(s[1..], escaped, rest);
      assert s == [c] + s[1..];
      if c in escaped {
        Appended(OctalEscape(c), Escape(s[1..], escaped), rest);
        TokenOfEscape(c, tail);
      } else {
        Appended([c], Escape(s[1..], escaped), rest);
        NotSpecial(c, s, escaped);
        LiteralIsNoEscape(c, s[1..], escaped, rest);
        TokenOfLiteral(c, tail);
      }
    }
  }

  /** Parsing inverts escaping, for every non-empty NUL-free string, every sufficient escape set, any
      leading blanks and anything behind the separator. */
  lemma ParseOfEscaped(blanks: Text, s: Text, escaped: set<Byte>, rest: Text)
    requires EnoughEscaped(escaped) && s != [] && 0 !in s && EndsField(CharAt(rest, 0))
    requires forall i | 0 <= i < |blanks| :: IsBlank(blanks[i])
    ensures ParseField(blanks + Escape(s, escaped) + rest) == Field(s, rest)
  {
    hide Token, Escape, SkipBlanks, EndsField;
    var t := Escape(s, escaped) + rest;
    TokenOfEscaped(s, escaped, rest);
    EscapedStart(s, escaped, rest);
    SkipLeading(blanks, t);
    Appended(blanks, Escape(s, escaped), rest);
  }

  lemma EscapedStart(s: Text, escaped: set<Byte>, rest: Text)
    requires EnoughEscaped(escaped) && s != [] && 0 !in s
    ensures var c := CharAt(Escape(s, escaped) + rest, 0); !EndsField(c) && !IsBlank(c) && c != 0
  {
    assert s[0] in s;
  }

  lemma {:induction false} SkipLeading(blanks: Text, t: Text)
    requires !IsBlank(CharAt(t, 0)) && forall i | 0 <= i < |blanks| :: IsBlank(blanks[i])
    ensures SkipBlanks(blanks + t) == t
  {
    if blanks == [] {
      assert blanks + t == t;
    } else {
      SkipLeading(blanks[1..], t);
      assert (blanks + t)[1..] == blanks[1..] + t;
    }
  }

  ghost predicate SurvivesEscaping(s: Text, escaped: set<Byte>) {
    ParseField(Escape(s, escaped)) == Field(s, [])
  }

  /** Exactly these escape sets bring every string back. */
  lemma EveryStringSurvivesIffEnoughEscaped(escaped: set<Byte>)
    ensures (forall s: Text | s != [] && 0 !in s :: SurvivesEscaping(s, escaped)) <==> EnoughEscaped(escaped)
  {
    if EnoughEscaped(escaped) {
      forall s: Text | s != [] && 0 !in s ensures SurvivesEscaping(s, escaped) {
        ParseOfEscaped([], s, escaped, []);
        Appended(Escape(s, escaped), [], []);
        assert [] + Escape(s, escaped) + [] == Escape(s, escaped);
      }
    } else if SPACE !in escaped {
      BlankIsLost(SPACE, escaped);
    } else if TAB !in escaped {
      BlankIsLost(TAB, escaped);
    } else {
      var d: Byte :| 48 <= d <= 51 && d !in escaped;
      LooksEscaped(d, escaped);
    }
  }

  lemma BlankIsLost(c: Byte, escaped: set<Byte>)
    requires IsBlank(c) && c !in escaped
    ensures !SurvivesEscaping([c], escaped)
  {
    assert [c][1..] == [];
    assert Escape([c], escaped) == [c];
    assert SkipBlanks([c]) == [];
  }

  /** A backslash and three small digits, all left as they are, read as one byte. */
  lemma LooksEscaped(d: Byte, escaped: set<Byte>)
    requires 48 <= d <= 51 && d !in escaped && BACKSLASH !in escaped
    ensures !SurvivesEscaping([BACKSLASH, d, d, d], escaped)
  {
    var s: Text := [BACKSLASH, d, d, d];
    EscapeOfLiterals(s, escaped);
    assert EscapeAhead(s) && s[4..] == [];
    assert Token(s).0 == [OctalValue(s)];
  }

  lemma {:induction false} EscapeOfLiterals(s: Text, escaped: set<Byte>)
    requires forall i | 0 <= i < |s| :: s[i] !in escaped
    ensures Escape(s, escaped) == s
  {
    if s != [] {
      EscapeOfLiterals(s[1..], escaped);
    }
  }
}
