/**
 * Facts about the `strptime` model: how the backtracking matcher treats
 * whitespace, digit groups and name groups, and the round trips between
 * the resolver's formats and the texts that `strftime` would write for them.
 */
module StrptimeFacts {
  import opened Wrappers
  import opened Text
  import opened Strptime

  // ---------------------------------------------------------------------
  // The matcher

  /** The match extended by a group capture in front. */
  function Extend(d: Directive, text: string, m: Match): Match {
    Match([Capture(d, text)] + m.captures, m.end)
  }

  /** Alternative `alt` of a group at `pos` leads nowhere: it does not
      match, or the pattern from item `i` on fails after it. */
  predicate Fails(alt: Alt, fmt: seq<Item>, i: nat, s: string, pos: nat)
    requires i <= |fmt| && pos <= |s|
  {
    !AltMatches(alt, s, pos) || MatchFrom(fmt, i, s, pos + Width(alt)).None?
  }

  /** A group skips over a run of alternatives that lead nowhere. */
  lemma {:induction false} TryAltsSkip(d: Directive, alts: seq<Alt>, j: nat, k: nat, fmt: seq<Item>, i: nat, s: string, pos: nat)
    requires Consuming(alts) && j <= k <= |alts| && i <= |fmt| && pos <= |s|
    requires forall a :: j <= a < k ==> Fails(alts[a], fmt, i, s, pos)
    ensures TryAlts(d, alts, j, fmt, i, s, pos) == TryAlts(d, alts, k, fmt, i, s, pos)
    decreases k - j
  {
    if j < k {
      assert Fails(alts[j], fmt, i, s, pos);
      TryAltsSkip(d, alts, j + 1, k, fmt, i, s, pos);
    }
  }

  /** A group fails when every alternative leads nowhere. */
  lemma {:induction false} TryAltsFail(d: Directive, alts: seq<Alt>, fmt: seq<Item>, i: nat, s: string, pos: nat)
    requires Consuming(alts) && i <= |fmt| && pos <= |s|
    requires forall a :: 0 <= a < |alts| ==> Fails(alts[a], fmt, i, s, pos)
    ensures TryAlts(d, alts, 0, fmt, i, s, pos).None?
  {
    TryAltsSkip(d, alts, 0, |alts|, fmt, i, s, pos);
  }

  /** A group settles on its first matching alternative when the rest of
      the pattern matches after it. */
  lemma {:induction false} TryAltsTake(d: Directive, alts: seq<Alt>, fmt: seq<Item>, i: nat, s: string, pos: nat, j: nat, len: nat, m: Match)
    requires Consuming(alts) && j < |alts| && i <= |fmt| && pos <= |s|
    requires forall a :: 0 <= a < j ==> !AltMatches(alts[a], s, pos)
    requires AltMatches(alts[j], s, pos) && Width(alts[j]) == len
    requires MatchFrom(fmt, i, s, pos + len) == Some(m)
    ensures pos + len <= |s| && TryAlts(d, alts, 0, fmt, i, s, pos) == Some(Extend(d, s[pos..pos + len], m))
  {
    TryAltsSkip(d, alts, 0, j, fmt, i, s, pos);
  }

  /** The three kinds of item. */
  lemma {:induction false} MatchLit(fmt: seq<Item>, i: nat, c: char, s: string, pos: nat)
    requires i < |fmt| && fmt[i] == Lit(c) && pos <= |s|
    ensures MatchFrom(fmt, i, s, pos)
            == if pos < |s| && Lower(s[pos]) == Lower(c) then MatchFrom(fmt, i + 1, s, pos + 1) else None
  {
  }

  lemma {:induction false} MatchSpace(fmt: seq<Item>, i: nat, s: string, pos: nat)
    requires i < |fmt| && fmt[i] == Space && pos <= |s|
    ensures MatchFrom(fmt, i, s, pos) == TrySpaces(fmt, i + 1, s, pos, SpaceRun(s, pos))
  {
  }

  /** A literal character that the text has at `pos`, followed by a match `m` of the rest. */
  lemma {:induction false} LitField(fmt: seq<Item>, i: nat, c: char, s: string, pos: nat, m: Match)
    requires i < |fmt| && fmt[i] == Lit(c) && pos < |s| && Lower(s[pos]) == Lower(c)
    requires MatchFrom(fmt, i + 1, s, pos + 1) == Some(m)
    ensures MatchFrom(fmt, i, s, pos) == Some(m)
  {
  }

  lemma {:induction false} MatchField(fmt: seq<Item>, i: nat, d: Directive, s: string, pos: nat)
    requires i < |fmt| && fmt[i] == Field(d) && pos <= |s|
    ensures MatchFrom(fmt, i, s, pos) == TryAlts(d, Alternatives(d), 0, fmt, i + 1, s, pos)
  {
  }

  /** A pattern with a `\s+` still ahead (at item `k`) cannot match text
      that has no whitespace left. */
  lemma {:induction false} NoWhitespaceNoMatch(fmt: seq<Item>, i: nat, k: nat, s: string, pos: nat)
    requires i <= k < |fmt| && fmt[k] == Space && pos <= |s|
    requires forall q :: pos <= q < |s| ==> !IsSpace(s[q])
    ensures MatchFrom(fmt, i, s, pos).None?
    decreases k - i, 1
  {
    match fmt[i]
    case Space =>
      MatchSpace(fmt, i, s, pos);
      assert SpaceRun(s, pos) == 0;
    case Lit(c) =>
      MatchLit(fmt, i, c, s, pos);
      if pos < |s| {
        NoWhitespaceNoMatch(fmt, i + 1, k, s, pos + 1);
      }
    case Field(d) =>
      MatchField(fmt, i, d, s, pos);
      NoWhitespaceGroup(d, fmt, i + 1, k, s, pos);
  }

  lemma {:induction false} NoWhitespaceGroup(d: Directive, fmt: seq<Item>, i: nat, k: nat, s: string, pos: nat)
    requires i <= k < |fmt| && fmt[k] == Space && pos <= |s|
    requires forall q :: pos <= q < |s| ==> !IsSpace(s[q])
    ensures TryAlts(d, Alternatives(d), 0, fmt, i, s, pos).None?
    decreases k - i + 1, 0
  {
    var alts := Alternatives(d);
    forall a | 0 <= a < |alts| ensures Fails(alts[a], fmt, i, s, pos) {
      if AltMatches(alts[a], s, pos) {
        NoWhitespaceNoMatch(fmt, i, k, s, pos + Width(alts[a]));
      }
    }
    TryAltsFail(d, alts, fmt, i, s, pos);
  }

  /** Alternative `j` is the first of `d`'s group that matches at `pos`, and it is `len` long. */
  predicate FirstAlt(d: Directive, s: string, pos: nat, j: nat, len: nat)
    requires pos <= |s|
  {
    && j < |Alternatives(d)|
    && Width(Alternatives(d)[j]) == len
    && AltMatches(Alternatives(d)[j], s, pos)
    && forall a :: 0 <= a < j ==> !AltMatches(Alternatives(d)[a], s, pos)
  }

  /** A group whose first matching alternative lets the rest of the
      pattern match captures that alternative's text. */
  lemma {:induction false} GroupTakes(d: Directive, fmt: seq<Item>, i: nat, s: string, pos: nat, j: nat, len: nat, m: Match)
    requires i < |fmt| && fmt[i] == Field(d) && pos <= |s| && FirstAlt(d, s, pos, j, len)
    requires MatchFrom(fmt, i + 1, s, pos + len) == Some(m)
    ensures MatchFrom(fmt, i, s, pos) == Some(Extend(d, s[pos..pos + len], m))
  {
    MatchField(fmt, i, d, s, pos);
    TryAltsTake(d, Alternatives(d), fmt, i + 1, s, pos, j, len, m);
  }

  /** A group none of whose alternatives matches fails. */
  lemma {:induction false} GroupFails(d: Directive, fmt: seq<Item>, i: nat, s: string, pos: nat)
    requires i < |fmt| && fmt[i] == Field(d) && pos <= |s|
    requires forall a :: 0 <= a < |Alternatives(d)| ==> !AltMatches(Alternatives(d)[a], s, pos)
    ensures MatchFrom(fmt, i, s, pos).None?
  {
    MatchField(fmt, i, d, s, pos);
    TryAltsFail(d, Alternatives(d), fmt, i + 1, s, pos);
  }

  /** `\s+` over a single whitespace character. */
  lemma {:induction false} SpaceField(fmt: seq<Item>, i: nat, s: string, pos: nat, m: Match)
    requires i < |fmt| && fmt[i] == Space
    requires pos < |s| && IsSpace(s[pos]) && (pos + 1 == |s| || !IsSpace(s[pos + 1]))
    requires MatchFrom(fmt, i + 1, s, pos + 1) == Some(m)
    ensures MatchFrom(fmt, i, s, pos) == Some(m)
  {
    MatchSpace(fmt, i, s, pos);
    assert SpaceRun(s, pos + 1) == 0;
  }

  lemma {:induction false} AltMatches1(a: Atom, s: string, pos: nat)
    requires pos <= |s|
    ensures AltMatches(Atoms([a]), s, pos) <==> pos < |s| && MatchAtom(a, s[pos])
  {
    var atoms := [a];
    if pos < |s| && MatchAtom(a, s[pos]) {
      forall k | 0 <= k < 1 ensures MatchAtom(atoms[k], s[pos + k]) {
        assert k == 0;
      }
    }
    if AtomsMatch(atoms, s, pos) {
      assert MatchAtom(atoms[0], s[pos + 0]);
    }
  }

  lemma {:induction false} AltMatches2(a: Atom, b: Atom, s: string, pos: nat)
    requires pos <= |s|
    ensures AltMatches(Atoms([a, b]), s, pos) <==> pos + 2 <= |s| && MatchAtom(a, s[pos]) && MatchAtom(b, s[pos + 1])
  {
    var atoms := [a, b];
    if pos + 2 <= |s| && MatchAtom(a, s[pos]) && MatchAtom(b, s[pos + 1]) {
      forall k | 0 <= k < 2 ensures MatchAtom(atoms[k], s[pos + k]) {
        assert k == 0 || k == 1;
      }
    }
    if AtomsMatch(atoms, s, pos) {
      assert MatchAtom(atoms[0], s[pos + 0]) && MatchAtom(atoms[1], s[pos + 1]);
    }
  }

  // ---------------------------------------------------------------------
  // Numbers as `strftime` and `isoformat` write them

  function DigitChar(k: nat): (c: char)
    requires k <= 9
    ensures IsDigit(c) && c as int - '0' as int == k
  {
    ('0' as int + k) as char
  }

  /** `%02d` */
  function Pad2(n: nat): (t: string)
    requires n <= 99
    ensures |t| == 2
  {
    [DigitChar(n / 10), DigitChar(n % 10)]
  }

  /** `%04d` */
  function Pad4(n: nat): (t: string)
    requires n <= 9999
    ensures |t| == 4
  {
    Pad2(n / 100) + Pad2(n % 100)
  }

  /** `%d`, for the one- and two-digit numbers a clock or a calendar shows */
  function Decimal(n: nat): (t: string)
    requires n <= 99
    ensures 1 <= |t| <= 2
  {
    if n < 10 then [DigitChar(n)] else Pad2(n)
  }

  /** `t` writes `n` in decimal, with or without a leading zero. */
  predicate Numeral(t: string, n: nat) {
    n <= 99 && (t == Pad2(n) || t == Decimal(n))
  }

  lemma {:induction false} DigitsValueAppend(x: string, y: string, acc: nat)
    ensures DigitsValue(x + y, acc) == DigitsValue(y, DigitsValue(x, acc))
    decreases |x|
  {
    if x != [] {
      assert (x + y)[0] == x[0] && (x + y)[1..] == x[1..] + y;
      DigitsValueAppend(x[1..], y, acc * 10 + (if IsDigit(x[0]) then x[0] as int - '0' as int else 0));
    } else {
      assert x + y == y;
    }
  }

  lemma {:induction false} DigitsValuePad2(n: nat, acc: nat)
    requires n <= 99
    ensures DigitsValue(Pad2(n), acc) == acc * 100 + n
  {
    var t := Pad2(n);
    var high := acc * 10 + n / 10;
    assert t[0] == DigitChar(n / 10) && t[1..] == [DigitChar(n % 10)];
    assert DigitsValue(t, acc) == DigitsValue(t[1..], high);
    assert t[1..][1..] == [];
    assert DigitsValue(t[1..], high) == high * 10 + n % 10;
  }

  /** `int()` reads back what `%02d` wrote. */
  lemma {:induction false} NumberPad2(n: nat)
    requires n <= 99
    ensures Number(Pad2(n)) == n
  {
    DigitsValuePad2(n, 0);
  }

  /** `int()` reads back what `%04d` wrote. */
  lemma {:induction false} NumberPad4(n: nat)
    requires n <= 9999
    ensures Number(Pad4(n)) == n
  {
    DigitsValueAppend(Pad2(n / 100), Pad2(n % 100), 0);
    DigitsValuePad2(n / 100, 0);
    DigitsValuePad2(n % 100, n / 100);
  }

  /** `int()` reads back a numeral with or without its leading zero. */
  lemma {:induction false} NumberNumeral(t: string, n: nat)
    requires Numeral(t, n)
    ensures Number(t) == n
  {
    if t == Pad2(n) {
      NumberPad2(n);
    } else if n < 10 {
      assert t == [DigitChar(n)] && t[1..] == [];
      assert DigitsValue(t, 0) == DigitsValue([], n);
    } else {
      NumberPad2(n);
    }
  }

  // ---------------------------------------------------------------------
  // Numeric groups

  /** The values a numeric directive's regex accepts. */
  predicate InRange(d: Directive, n: nat) {
    match d
    case Day => 1 <= n <= 31
    case Month => 1 <= n <= 12
    case Hour24 => n <= 23
    case Hour12 => 1 <= n <= 12
    case Minute => n <= 59
    case _ => false
  }

  /** The numeral `t` of `n` stands at `pos`; a one-digit numeral is not followed by a digit. */
  predicate NumeralAt(s: string, pos: nat, t: string, n: nat) {
    && Numeral(t, n) && pos + |t| <= |s| && s[pos..pos + |t|] == t
    && (|t| == 2 || pos + |t| == |s| || !IsDigit(s[pos + |t|]))
  }

  lemma {:induction false} NumeralChars(s: string, pos: nat, t: string, n: nat)
    requires NumeralAt(s, pos, t, n)
    ensures |t| == 2 ==> s[pos] == DigitChar(n / 10) && s[pos + 1] == DigitChar(n % 10)
    ensures |t| == 1 ==> n < 10 && s[pos] == DigitChar(n) && (pos + 1 == |s| || !IsDigit(s[pos + 1]))
  {
    if |t| == 2 {
      assert t == Pad2(n);
      assert s[pos] == t[0] && s[pos + 1] == t[1];
    } else {
      assert t == [DigitChar(n)];
      assert s[pos] == t[0];
    }
  }

  /** `1[0-2]|0[1-9]|[1-9]`, the group of `%m` and of `%I` */
  lemma {:induction false} UpToTwelveAlt(d: Directive, s: string, pos: nat, t: string, n: nat) returns (j: nat)
    requires d == Month || d == Hour12
    requires 1 <= n <= 12 && NumeralAt(s, pos, t, n)
    ensures FirstAlt(d, s, pos, j, |t|)
  {
    NumeralChars(s, pos, t, n);
    AltMatches2(Char('1'), DigitIn('0', '2'), s, pos);
    AltMatches2(Char('0'), DigitIn('1', '9'), s, pos);
    AltMatches1(DigitIn('1', '9'), s, pos);
    j := if |t| == 2 && n >= 10 then 0 else if |t| == 2 then 1 else 2;
  }

  /** `3[01]|[12]\d|0[1-9]|[1-9]| [1-9]`, the group of `%d` */
  lemma {:induction false} DayAlt(s: string, pos: nat, t: string, n: nat) returns (j: nat)
    requires 1 <= n <= 31 && NumeralAt(s, pos, t, n)
    ensures FirstAlt(Day, s, pos, j, |t|)
  {
    NumeralChars(s, pos, t, n);
    AltMatches2(Char('3'), DigitIn('0', '1'), s, pos);
    AltMatches2(DigitIn('1', '2'), AnyDigit, s, pos);
    AltMatches2(Char('0'), DigitIn('1', '9'), s, pos);
    AltMatches1(DigitIn('1', '9'), s, pos);
    j := if |t| == 2 && n >= 30 then 0 else if |t| == 2 && n >= 10 then 1 else if |t| == 2 then 2 else 3;
  }

  /** `2[0-3]|[0-1]\d|\d`, the group of `%H` */
  lemma {:induction false} Hour24Alt(s: string, pos: nat, t: string, n: nat) returns (j: nat)
    requires n <= 23 && NumeralAt(s, pos, t, n)
    ensures FirstAlt(Hour24, s, pos, j, |t|)
  {
    NumeralChars(s, pos, t, n);
    AltMatches2(Char('2'), DigitIn('0', '3'), s, pos);
    AltMatches2(DigitIn('0', '1'), AnyDigit, s, pos);
    AltMatches1(AnyDigit, s, pos);
    j := if |t| == 2 && n >= 20 then 0 else if |t| == 2 then 1 else 2;
  }

  /** `[0-5]\d|\d`, the group of `%M` */
  lemma {:induction false} MinuteAlt(s: string, pos: nat, t: string, n: nat) returns (j: nat)
    requires n <= 59 && NumeralAt(s, pos, t, n)
    ensures FirstAlt(Minute, s, pos, j, |t|)
  {
    NumeralChars(s, pos, t, n);
    AltMatches2(DigitIn('0', '5'), AnyDigit, s, pos);
    AltMatches1(AnyDigit, s, pos);
    j := if |t| == 2 then 0 else 1;
  }

  /** A numeric group captures a whole numeral in its range, with or
      without a leading zero, when the rest of the pattern matches after it. */
  lemma {:induction false} NumberField(d: Directive, fmt: seq<Item>, i: nat, s: string, pos: nat, t: string, n: nat, m: Match)
    requires i < |fmt| && fmt[i] == Field(d)
    requires InRange(d, n) && NumeralAt(s, pos, t, n)
    requires MatchFrom(fmt, i + 1, s, pos + |t|) == Some(m)
    ensures MatchFrom(fmt, i, s, pos) == Some(Extend(d, t, m))
  {
    var j: nat;
    match d {
      case Day => j := DayAlt(s, pos, t, n);
      case Month => j := UpToTwelveAlt(Month, s, pos, t, n);
      case Hour12 => j := UpToTwelveAlt(Hour12, s, pos, t, n);
      case Hour24 => j := Hour24Alt(s, pos, t, n);
      case Minute => j := MinuteAlt(s, pos, t, n);
    }
    GroupTakes(d, fmt, i, s, pos, j, |t|, m);
  }

  /** `\d\d\d\d`, the group of `%Y`, captures four digits. */
  lemma {:induction false} YearField(fmt: seq<Item>, i: nat, s: string, pos: nat, y: nat, m: Match)
    requires i < |fmt| && fmt[i] == Field(Year)
    requires y <= 9999 && pos + 4 <= |s| && s[pos..pos + 4] == Pad4(y)
    requires MatchFrom(fmt, i + 1, s, pos + 4) == Some(m)
    ensures MatchFrom(fmt, i, s, pos) == Some(Extend(Year, Pad4(y), m))
  {
    var alt := Alternatives(Year)[0].atoms;
    forall k | 0 <= k < 4 ensures MatchAtom(alt[k], s[pos + k]) {
      assert s[pos + k] == Pad4(y)[k];
    }
    assert FirstAlt(Year, s, pos, 0, 4);
    GroupTakes(Year, fmt, i, s, pos, 0, 4, m);
  }

  // ---------------------------------------------------------------------
  // Name groups

  /** The first three letters of a name. */
  function Key(w: string): (char, char, char)
    requires |w| >= 3
  {
    (w[0], w[1], w[2])
  }

  /** No two weekday names, and no two month names, share their first three letters. */
  lemma {:induction false} NameKeys()
    ensures forall i :: 0 <= i < |WeekdaysByLength| ==> |WeekdaysByLength[i]| >= 3
    ensures forall i :: 0 <= i < |MonthsByLength| ==> |MonthsByLength[i]| >= 3
    ensures forall i, k :: 0 <= i < k < |WeekdaysByLength| ==> Key(WeekdaysByLength[i]) != Key(WeekdaysByLength[k])
    ensures forall i, k :: 0 <= i < k < |MonthsByLength| ==> Key(MonthsByLength[i]) != Key(MonthsByLength[k])
  {
  }

  /** The names a name group tries, in its order. */
  function NamesOf(d: Directive): (names: seq<string>)
    requires d == WeekdayName || d == MonthName
    ensures Alternatives(d) == Names(names)
  {
    if d == WeekdayName then WeekdaysByLength else MonthsByLength
  }

  /** `t` spells the lower-case word `w` in any mix of upper and lower case. */
  predicate Spells(t: string, w: string) {
    |t| == |w| && forall i {:trigger t[i]} :: 0 <= i < |t| ==> Lower(t[i]) == w[i]
  }

  /** `LowerText` lowers each character in place. */
  lemma {:induction false} LowerTextAt(t: string)
    ensures forall i :: 0 <= i < |t| ==> LowerText(t)[i] == Lower(t[i])
  {
    if t != [] {
      LowerTextAt(t[1..]);
      forall i | 1 <= i < |t| ensures LowerText(t)[i] == Lower(t[i]) {
        assert LowerText(t)[i] == LowerText(t[1..])[i - 1];
      }
    }
  }

  /** What `_strptime` looks up for a spelled name is the name itself. */
  lemma {:induction false} SpellsLower(t: string, w: string)
    requires Spells(t, w)
    ensures LowerText(t) == w
  {
    LowerTextAt(t);
  }

  /** A name spelled in the text stands there as far as the name group is concerned. */
  lemma {:induction false} NameAtText(t: string, w: string, s: string, p: nat)
    requires Spells(t, w) && p + |t| <= |s| && s[p..p + |t|] == t
    ensures AltMatches(Name(w), s, p)
  {
    forall k | 0 <= k < |w| ensures Lower(s[p + k]) == w[k] {
      assert s[p + k] == t[k];
    }
  }

  /** Two names that both match at `pos` share their first three letters. */
  lemma {:induction false} SameKey(s: string, pos: nat, v: string, w: string)
    requires pos <= |s| && |v| >= 3 && |w| >= 3
    requires AltMatches(Name(v), s, pos) && AltMatches(Name(w), s, pos)
    ensures Key(v) == Key(w)
  {
    assert v[0] == Lower(s[pos + 0]) == w[0];
    assert v[1] == Lower(s[pos + 1]) == w[1];
    assert v[2] == Lower(s[pos + 2]) == w[2];
  }

  /** The names of a group have distinct first three letters. */
  predicate KeysDistinct(names: seq<string>) {
    && (forall i :: 0 <= i < |names| ==> |names[i]| >= 3)
    && (forall i, k :: 0 <= i < k < |names| ==> Key(names[i]) != Key(names[k]))
  }

  lemma {:induction false} DistinctKeys(d: Directive)
    requires d == WeekdayName || d == MonthName
    ensures KeysDistinct(NamesOf(d))
  {
    NameKeys();
  }

  /** Among names with distinct first three letters, the one that stands
      at `pos` is the first alternative that matches there. */
  lemma {:induction false} FirstName(names: seq<string>, s: string, pos: nat, k: nat)
    requires pos <= |s| && KeysDistinct(names) && k < |names| && AltMatches(Name(names[k]), s, pos)
    ensures AltMatches(Names(names)[k], s, pos)
    ensures forall a :: 0 <= a < k ==> !AltMatches(Names(names)[a], s, pos)
  {
    var alts := Names(names);
    assert alts[k] == Name(names[k]);
    forall a | 0 <= a < k ensures !AltMatches(alts[a], s, pos) {
      assert alts[a] == Name(names[a]);
      if AltMatches(Name(names[a]), s, pos) {
        SameKey(s, pos, names[a], names[k]);
      }
    }
  }

  /** A name that matches none of the names of a group by its first three letters is not matched by the group. */
  lemma {:induction false} NoName(names: seq<string>, v: string, s: string, pos: nat)
    requires pos <= |s| && |v| >= 3 && AltMatches(Name(v), s, pos)
    requires forall a :: 0 <= a < |names| ==> |names[a]| >= 3 && Key(names[a]) != Key(v)
    ensures forall a :: 0 <= a < |names| ==> !AltMatches(Names(names)[a], s, pos)
  {
    var alts := Names(names);
    forall a | 0 <= a < |names| ensures !AltMatches(alts[a], s, pos) {
      assert alts[a] == Name(names[a]);
      if AltMatches(Name(names[a]), s, pos) {
        SameKey(s, pos, names[a], v);
      }
    }
  }

  /** A group of names with distinct first three letters captures the
      name that stands at `pos` when the rest of the pattern matches after it. */
  lemma {:induction false} NameTake(d: Directive, names: seq<string>, fmt: seq<Item>, i: nat, s: string, pos: nat, k: nat, w: string, m: Match)
    requires i < |fmt| && fmt[i] == Field(d) && Alternatives(d) == Names(names)
    requires KeysDistinct(names) && k < |names| && names[k] == w
    requires pos <= |s| && AltMatches(Name(w), s, pos)
    requires MatchFrom(fmt, i + 1, s, pos + |w|) == Some(m)
    ensures MatchFrom(fmt, i, s, pos) == Some(Extend(d, s[pos..pos + |w|], m))
  {
    FirstName(names, s, pos, k);
    assert Names(names)[k] == Name(w);
    MatchField(fmt, i, d, s, pos);
    TryAltsTake(d, Alternatives(d), fmt, i + 1, s, pos, k, |w|, m);
  }

  /** A group of names with distinct first three letters captures the
      text `t` at `p` that spells the name it tries at place `k`. */
  lemma {:induction false} NameField(d: Directive, names: seq<string>, fmt: seq<Item>, i: nat, s: string, p: nat, k: nat, t: string, m: Match)
    requires i < |fmt| && fmt[i] == Field(d) && Alternatives(d) == Names(names) && KeysDistinct(names)
    requires k < |names| && Spells(t, names[k])
    requires p + |t| <= |s| && s[p..p + |t|] == t
    requires MatchFrom(fmt, i + 1, s, p + |t|) == Some(m)
    ensures MatchFrom(fmt, i, s, p) == Some(Extend(d, t, m))
  {
    NameAtText(t, names[k], s, p);
    NameTake(d, names, fmt, i, s, p, k, names[k], m);
  }

  /** `am|pm`, the group of `%p`, captures the marker in any case. */
  lemma {:induction false} MarkerField(fmt: seq<Item>, i: nat, s: string, pos: nat, marker: string, m: Match)
    requires i < |fmt| && fmt[i] == Field(AmPm)
    requires Spells(marker, "am") || Spells(marker, "pm")
    requires pos + 2 <= |s| && s[pos..pos + 2] == marker
    requires MatchFrom(fmt, i + 1, s, pos + 2) == Some(m)
    ensures MatchFrom(fmt, i, s, pos) == Some(Extend(AmPm, marker, m))
  {
    var low := if Spells(marker, "am") then "am" else "pm";
    NameAtText(marker, low, s, pos);
    var alts := Alternatives(AmPm);
    var j := if low == "am" then 0 else 1;
    assert alts[j] == Name(low);
    if j == 1 {
      assert !AltMatches(alts[0], s, pos) by {
        assert Lower(s[pos + 0]) == 'p';
      }
    }
    assert FirstAlt(AmPm, s, pos, j, 2);
    GroupTakes(AmPm, fmt, i, s, pos, j, 2, m);
  }

  // ---------------------------------------------------------------------
  // Looking up the captures

  /** What each directive looks up in a two-capture match. */
  lemma {:induction false} Lookup2(a: Capture, b: Capture)
    ensures forall d :: Lookup([a, b], d)
                        == if a.d == d then Some(a.text) else if b.d == d then Some(b.text) else None
  {
    var caps := [a, b];
    forall d ensures Lookup(caps, d) == if a.d == d then Some(a.text) else if b.d == d then Some(b.text) else None {
      assert LookupFrom(caps, d, 2) == None;
      assert LookupFrom(caps, d, 1) == if b.d == d then Some(b.text) else None;
    }
  }

  /** What each directive looks up in a three-capture match. */
  lemma {:induction false} Lookup3(a: Capture, b: Capture, c: Capture)
    ensures forall d :: Lookup([a, b, c], d)
                        == if a.d == d then Some(a.text) else if b.d == d then Some(b.text)
                           else if c.d == d then Some(c.text) else None
  {
    var caps := [a, b, c];
    forall d ensures Lookup(caps, d) == if a.d == d then Some(a.text) else if b.d == d then Some(b.text)
                                        else if c.d == d then Some(c.text) else None {
      assert LookupFrom(caps, d, 3) == None;
      assert LookupFrom(caps, d, 2) == if c.d == d then Some(c.text) else None;
      assert LookupFrom(caps, d, 1) == if b.d == d then Some(b.text) else if c.d == d then Some(c.text) else None;
    }
  }

  // ---------------------------------------------------------------------
  // `%Y-%m-%d`

  /** `date.isoformat()`: `YYYY-MM-DD` */
  function IsoText(y: nat, m: nat, d: nat): (t: string)
    requires y <= 9999 && m <= 99 && d <= 99
    ensures |t| == 10
  {
    Pad4(y) + "-" + Pad2(m) + "-" + Pad2(d)
  }

  /** The captures of `%Y-%m-%d` over the ISO text of a date. */
  lemma {:induction false} IsoDateMatch(y: nat, m: nat, d: nat, s: string)
    requires ValidDate(y, m, d) && s == IsoText(y, m, d)
    ensures MatchFrom(IsoDate, 0, s, 0)
            == Some(Match([Capture(Year, Pad4(y)), Capture(Month, Pad2(m)), Capture(Day, Pad2(d))], 10))
  {
    assert s[0..4] == Pad4(y) && s[4] == '-' && s[5..7] == Pad2(m) && s[7] == '-' && s[8..10] == Pad2(d);
    var m5 := Match([], 10);
    var m4 := Extend(Day, Pad2(d), m5);
    var m2 := Extend(Month, Pad2(m), m4);
    assert MatchFrom(IsoDate, 5, s, 10) == Some(m5);
    NumberField(Day, IsoDate, 4, s, 8, Pad2(d), d, m5);
    LitField(IsoDate, 3, '-', s, 7, m4);
    NumberField(Month, IsoDate, 2, s, 5, Pad2(m), m, m4);
    LitField(IsoDate, 1, '-', s, 4, m2);
    YearField(IsoDate, 0, s, 0, y, m2);
    assert Extend(Year, Pad4(y), m2).captures == [Capture(Year, Pad4(y)), Capture(Month, Pad2(m)), Capture(Day, Pad2(d))];
  }


  lemma {:induction false} IsoDateBuild(y: nat, m: nat, d: nat)
    requires ValidDate(y, m, d)
    ensures Build([Capture(Year, Pad4(y)), Capture(Month, Pad2(m)), Capture(Day, Pad2(d))]) == Ok(DateTime(y, m, d, 0, 0, 0))
  {
    Lookup3(Capture(Year, Pad4(y)), Capture(Month, Pad2(m)), Capture(Day, Pad2(d)));
    NumberPad4(y);
    NumberPad2(m);
    NumberPad2(d);
  }

  /** `strptime(date.isoformat(), "%Y-%m-%d")` gives back the date, at midnight. */
  lemma {:induction false} IsoDateRoundTrip(y: nat, m: nat, d: nat)
    requires ValidDate(y, m, d)
    ensures Parse(IsoDate, IsoText(y, m, d)) == Ok(DateTime(y, m, d, 0, 0, 0))
  {
    IsoDateMatch(y, m, d, IsoText(y, m, d));
    IsoDateBuild(y, m, d);
  }

  /** `%Y-%m-%d` refuses a text that starts with a letter. */
  lemma {:induction false} IsoDateNeedsDigit(s: string)
    requires s != [] && 'a' <= Lower(s[0]) <= 'z'
    ensures Parse(IsoDate, s) == Err(DoesNotMatch)
  {
    YearNeedsDigit(s);
    GroupFails(Year, IsoDate, 0, s, 0);
  }

  lemma {:induction false} YearNeedsDigit(s: string)
    requires s != [] && 'a' <= Lower(s[0]) <= 'z'
    ensures !AltMatches(Alternatives(Year)[0], s, 0)
  {
    var atoms := Alternatives(Year)[0].atoms;
    assert atoms[0] == AnyDigit && !IsDigit(s[0 + 0]);
  }

  // ---------------------------------------------------------------------
  // `%H:%M`

  /** `%H:%M` over an hour with or without its leading zero, two-digit minutes and any text after them. */
  lemma {:induction false} Clock24Match(h: nat, mi: nat, th: string, tail: string, s: string)
    requires h <= 23 && mi <= 59 && Numeral(th, h) && s == th + ":" + Pad2(mi) + tail
    ensures MatchFrom(Clock24, 0, s, 0) == Some(Match([Capture(Hour24, th), Capture(Minute, Pad2(mi))], |th| + 3))
  {
    var n := |th|;
    assert s[0..n] == th && s[n] == ':' && s[n + 1..n + 3] == Pad2(mi);
    var m3 := Match([], n + 3);
    var m2 := Extend(Minute, Pad2(mi), m3);
    assert MatchFrom(Clock24, 3, s, n + 3) == Some(m3);
    NumberField(Minute, Clock24, 2, s, n + 1, Pad2(mi), mi, m3);
    LitField(Clock24, 1, ':', s, n, m2);
    NumberField(Hour24, Clock24, 0, s, 0, th, h, m2);
    assert Extend(Hour24, th, m2).captures == [Capture(Hour24, th), Capture(Minute, Pad2(mi))];
  }


  lemma {:induction false} Clock24Build(h: nat, mi: nat, th: string)
    requires h <= 23 && mi <= 59 && Numeral(th, h)
    ensures Build([Capture(Hour24, th), Capture(Minute, Pad2(mi))]) == Ok(DateTime(1900, 1, 1, h, mi, 0))
  {
    Lookup2(Capture(Hour24, th), Capture(Minute, Pad2(mi)));
    NumberNumeral(th, h);
    NumberPad2(mi);
  }

  /** `strptime(t, "%H:%M")` reads the clock time back on 1900-01-01, and
      refuses it when anything follows the minutes. */
  lemma {:induction false} Clock24Parse(h: nat, mi: nat, th: string, tail: string)
    requires h <= 23 && mi <= 59 && Numeral(th, h)
    ensures Parse(Clock24, th + ":" + Pad2(mi) + tail)
            == if tail == [] then Ok(DateTime(1900, 1, 1, h, mi, 0)) else Err(UnconvertedDataRemains)
  {
    Clock24Match(h, mi, th, tail, th + ":" + Pad2(mi) + tail);
    Clock24Build(h, mi, th);
  }

  // ---------------------------------------------------------------------
  // `%I:%M %p`

  /** `%I`: the hour on a twelve-hour clock. */
  function Hour12Of(h: nat): (r: nat)
    requires h <= 23
    ensures 1 <= r <= 12
  {
    if h % 12 == 0 then 12 else h % 12
  }

  /** `%p` in the C locale, lower-cased. */
  function MarkerOf(h: nat): string
    requires h <= 23
  {
    if h < 12 then "am" else "pm"
  }

  /** The `%I`/`%p` rule of `_strptime` undoes the twelve-hour clock, and
      every twelve-hour reading comes from exactly one hour of the day. */
  lemma {:induction false} ClockHourInverse(h: nat, h12: nat, marker: string)
    requires h <= 23 && 1 <= h12 <= 12 && (marker == "am" || marker == "pm")
    ensures ClockHour(Hour12Of(h), MarkerOf(h)) == h
    ensures 0 <= ClockHour(h12, marker) <= 23
    ensures Hour12Of(ClockHour(h12, marker)) == h12 && MarkerOf(ClockHour(h12, marker)) == marker
  {
  }

  /** `%I:%M %p` over an hour with or without its leading zero and a marker in any case. */
  lemma {:induction false} Clock12Match(h12: nat, mi: nat, th: string, marker: string, s: string)
    requires 1 <= h12 <= 12 && mi <= 59 && Numeral(th, h12)
    requires Spells(marker, "am") || Spells(marker, "pm")
    requires s == th + ":" + Pad2(mi) + " " + marker
    ensures MatchFrom(Clock12, 0, s, 0)
            == Some(Match([Capture(Hour12, th), Capture(Minute, Pad2(mi)), Capture(AmPm, marker)], |th| + 6))
  {
    var n := |th|;
    assert s[0..n] == th && s[n] == ':' && s[n + 1..n + 3] == Pad2(mi) && s[n + 3] == ' ' && s[n + 4..n + 6] == marker;
    assert NumeralAt(s, 0, th, h12) && NumeralAt(s, n + 1, Pad2(mi), mi);
    Clock12At(h12, mi, th, marker, s);
  }

  /** `%I:%M %p` over the parts of a clock time, wherever they come from. */
  lemma {:induction false} Clock12At(h12: nat, mi: nat, th: string, marker: string, s: string)
    requires 1 <= h12 <= 12 && mi <= 59
    requires Spells(marker, "am") || Spells(marker, "pm")
    requires var n := |th|;
             && n + 6 == |s| && NumeralAt(s, 0, th, h12) && s[n] == ':' && NumeralAt(s, n + 1, Pad2(mi), mi)
             && s[n + 3] == ' ' && s[n + 4..n + 6] == marker
    ensures MatchFrom(Clock12, 0, s, 0)
            == Some(Match([Capture(Hour12, th), Capture(Minute, Pad2(mi)), Capture(AmPm, marker)], |th| + 6))
  {
    var n := |th|;
    var m2 := Extend(Minute, Pad2(mi), Extend(AmPm, marker, Match([], n + 6)));
    Clock12Minutes(mi, marker, s, n);
    NumberField(Hour12, Clock12, 0, s, 0, th, h12, m2);
    assert Extend(Hour12, th, m2).captures == [Capture(Hour12, th), Capture(Minute, Pad2(mi)), Capture(AmPm, marker)];
  }

  /** `:%M %p`, items 1 to 4 of `%I:%M %p`, from position `n` on. */
  lemma {:induction false} Clock12Minutes(mi: nat, marker: string, s: string, n: nat)
    requires mi <= 59 && (Spells(marker, "am") || Spells(marker, "pm"))
    requires n + 6 == |s| && s[n] == ':' && NumeralAt(s, n + 1, Pad2(mi), mi)
    requires s[n + 3] == ' ' && s[n + 4..n + 6] == marker
    ensures MatchFrom(Clock12, 1, s, n) == Some(Extend(Minute, Pad2(mi), Extend(AmPm, marker, Match([], n + 6))))
  {
    var m4 := Extend(AmPm, marker, Match([], n + 6));
    Clock12Marker(marker, s, n + 3);
    NumberField(Minute, Clock12, 2, s, n + 1, Pad2(mi), mi, m4);
    LitField(Clock12, 1, ':', s, n, Extend(Minute, Pad2(mi), m4));
  }

  /** ` %p`, items 3 and 4 of `%I:%M %p`, from position `p` on. */
  lemma {:induction false} Clock12Marker(marker: string, s: string, p: nat)
    requires Spells(marker, "am") || Spells(marker, "pm")
    requires p + 3 == |s| && s[p] == ' ' && s[p + 1..p + 3] == marker
    ensures MatchFrom(Clock12, 3, s, p) == Some(Extend(AmPm, marker, Match([], p + 3)))
  {
    assert Lower(s[p + 1]) == Lower(marker[0]);
    LetterNotSpace(s[p + 1]);
    var m5 := Match([], p + 3);
    assert MatchFrom(Clock12, 5, s, p + 3) == Some(m5);
    MarkerField(Clock12, 4, s, p + 1, marker, m5);
    SpaceField(Clock12, 3, s, p, Extend(AmPm, marker, m5));
  }

  lemma {:induction false} Clock12Build(h12: nat, mi: nat, th: string, marker: string)
    requires 1 <= h12 <= 12 && mi <= 59 && Number(th) == h12 && Number(Pad2(mi)) == mi
    requires LowerText(marker) == "am" || LowerText(marker) == "pm"
    ensures Build([Capture(Hour12, th), Capture(Minute, Pad2(mi)), Capture(AmPm, marker)])
            == Ok(DateTime(1900, 1, 1, ClockHour(h12, LowerText(marker)), mi, 0))
  {
    Lookup3(Capture(Hour12, th), Capture(Minute, Pad2(mi)), Capture(AmPm, marker));
    ClockHourInverse(0, h12, LowerText(marker));
  }

  /** `strptime(t, "%I:%M %p")` reads back the hour of the day that `%I` and
      `%p` wrote, whether or not the hour has its leading zero and whatever
      the case of the marker. */
  lemma {:induction false} Clock12RoundTrip(h: nat, mi: nat, th: string, marker: string)
    requires h <= 23 && mi <= 59 && Numeral(th, Hour12Of(h))
    requires Spells(marker, MarkerOf(h))
    ensures Parse(Clock12, th + ":" + Pad2(mi) + " " + marker) == Ok(DateTime(1900, 1, 1, h, mi, 0))
  {
    Clock12Match(Hour12Of(h), mi, th, marker, th + ":" + Pad2(mi) + " " + marker);
    SpellsLower(marker, MarkerOf(h));
    NumberNumeral(th, Hour12Of(h));
    NumberPad2(mi);
    Clock12Build(Hour12Of(h), mi, th, marker);
    ClockHourInverse(h, 12, "am");
  }

  /** `%I:%M %p` refuses any text without whitespace, such as a clock time with seconds. */
  lemma {:induction false} Clock12NeedsSpace(s: string)
    requires forall q :: 0 <= q < |s| ==> !IsSpace(s[q])
    ensures Parse(Clock12, s) == Err(DoesNotMatch)
  {
    NoWhitespaceNoMatch(Clock12, 0, 3, s, 0);
  }

  // ---------------------------------------------------------------------
  // The name tables

  /** `sorted` lists `names` longest first, ties kept in their order in
      `names` (Python's stable `sorted(names, key=len, reverse=True)`):
      `order[i]` is the position in `names` of `sorted[i]`, every position
      is used (so each exactly once), and each neighbour pair is in
      (length down, position up) order. */
  predicate StableLongestFirst(sorted: seq<string>, names: seq<string>, order: seq<nat>) {
    && |sorted| == |names| == |order|
    && (forall i :: 0 <= i < |order| ==> order[i] < |names| && sorted[i] == names[order[i]])
    && (forall k :: 0 <= k < |names| ==> k in order)
    && (forall i :: 0 <= i < |sorted| - 1 ==>
          |sorted[i]| > |sorted[i + 1]| || (|sorted[i]| == |sorted[i + 1]| && order[i] < order[i + 1]))
  }

  /** The weekday group tries the names in the order `_seqToRE` gives them. */
  lemma {:induction false} WeekdaysLongestFirst()
    ensures StableLongestFirst(WeekdaysByLength, WeekdayNames, [2, 3, 5, 1, 0, 4, 6])
  {
  }

  /** The month group tries the names in the order `_seqToRE` gives them. */
  lemma {:induction false} MonthsLongestFirst()
    ensures StableLongestFirst(MonthsByLength, MonthNames, MonthOrder)
  {
    MonthOrderPicks();
    MonthOrderCovers();
    MonthOrderSorted();
  }

  /** The positions in `MonthNames` of the names of `MonthsByLength`. */
  const MonthOrder: seq<nat> := [8, 1, 10, 11, 0, 9, 7, 2, 3, 5, 6, 4]

  lemma {:induction false} MonthOrderPicks()
    ensures forall i :: 0 <= i < 12 ==> MonthOrder[i] < 12 && MonthsByLength[i] == MonthNames[MonthOrder[i]]
  {
  }

  lemma {:induction false} MonthOrderCovers()
    ensures forall k :: 0 <= k < 12 ==> k in MonthOrder
  {
    forall k | 0 <= k < 12 ensures k in MonthOrder {
      assert MonthOrder[MonthSlot[k]] == k;
    }
  }

  lemma {:induction false} MonthOrderSorted()
    ensures forall i :: 0 <= i < 11 ==>
              |MonthsByLength[i]| > |MonthsByLength[i + 1]|
              || (|MonthsByLength[i]| == |MonthsByLength[i + 1]| && MonthOrder[i] < MonthOrder[i + 1])
  {
  }

  /** Where each weekday and each month stands in its group. */
  const WeekdaySlot: seq<nat> := [4, 3, 0, 1, 5, 2, 6]
  const MonthSlot: seq<nat> := [4, 1, 7, 8, 11, 9, 10, 6, 0, 5, 2, 3]

  lemma {:induction false} WeekdaySlotOf(w: nat)
    requires w < 7
    ensures WeekdaySlot[w] < 7 && WeekdaysByLength[WeekdaySlot[w]] == WeekdayNames[w]
  {
  }

  lemma {:induction false} MonthSlotOf(m: nat)
    requires m < 12
    ensures MonthSlot[m] < 12 && MonthsByLength[MonthSlot[m]] == MonthNames[m]
  {
  }

  /** Facts about the names the two lists hold. */
  lemma {:induction false} NameFacts()
    ensures |WeekdayNames| == 7 && |MonthNames| == 12
    ensures forall a, b :: 0 <= a < b < 7 ==> WeekdayNames[a] != WeekdayNames[b]
    ensures forall a, b :: 0 <= a < b < 12 ==> MonthNames[a] != MonthNames[b]
    ensures forall a :: 0 <= a < 7 ==> |WeekdayNames[a]| >= 3 && 'a' <= WeekdayNames[a][0] <= 'z'
    ensures forall a :: 0 <= a < 12 ==> |MonthNames[a]| >= 3 && 'a' <= MonthNames[a][0] <= 'z'
    ensures forall a, b :: 0 <= a < 7 && 0 <= b < 12 ==> Key(WeekdayNames[a]) != Key(MonthsByLength[b])
  {
  }

  /** `Position` gives a place where the name stands. */
  lemma {:induction false} PositionFound(names: seq<string>, name: string)
    requires Position(names, name).Some?
    ensures names[Position(names, name).value - 1] == name
  {
    PositionFromFound(names, name, 0);
  }

  lemma {:induction false} PositionFromFound(names: seq<string>, name: string, i: nat)
    requires i <= |names| && PositionFrom(names, name, i).Some?
    ensures names[PositionFrom(names, name, i).value - 1] == name
    decreases |names| - i
  {
    if names[i] != name {
      PositionFromFound(names, name, i + 1);
    }
  }

  /** The names of both groups start with a letter, and no month name
      shares its first three letters with a weekday name. */
  lemma {:induction false} GroupFacts()
    ensures forall a :: 0 <= a < |WeekdaysByLength| ==> |WeekdaysByLength[a]| >= 3 && 'a' <= WeekdaysByLength[a][0] <= 'z'
    ensures forall a :: 0 <= a < |MonthsByLength| ==> |MonthsByLength[a]| >= 3 && 'a' <= MonthsByLength[a][0] <= 'z'
    ensures forall a, b :: 0 <= a < 12 && 0 <= b < |WeekdaysByLength| ==> Key(MonthNames[a]) != Key(WeekdaysByLength[b])
  {
  }

  /** `names.index(names[i])` for a list without repeats. */
  lemma {:induction false} PositionOf(names: seq<string>, i: nat)
    requires i < |names|
    requires forall a, b :: 0 <= a < b < |names| ==> names[a] != names[b]
    ensures Position(names, names[i]) == Some(i + 1)
  {
    PositionFromOf(names, i, 0);
  }

  lemma {:induction false} PositionFromOf(names: seq<string>, i: nat, k: nat)
    requires k <= i < |names|
    requires forall a, b :: 0 <= a < b < |names| ==> names[a] != names[b]
    ensures PositionFrom(names, names[i], k) == Some(i + 1)
    decreases i - k
  {
    if k < i {
      assert names[k] != names[i];
      PositionFromOf(names, i, k + 1);
    }
  }

  /** `_strptime` finds a weekday's number, and a month's, from its lower-cased name. */
  lemma {:induction false} WeekdayPosition(w: nat)
    requires w < 7
    ensures Position(WeekdayNames, WeekdayNames[w]) == Some(w + 1)
  {
    NameFacts();
    PositionOf(WeekdayNames, w);
  }

  /** A weekday name, in any case, is found at its place in the table. */
  lemma {:induction false} WeekdayKnown(w: nat, wt: string)
    requires w < 7 && Spells(wt, WeekdayNames[w])
    ensures Position(WeekdayNames, LowerText(wt)) == Some(w + 1)
  {
    SpellsLower(wt, WeekdayNames[w]);
    WeekdayPosition(w);
  }

  /** A month name, in any case, is found at its place in the table. */
  lemma {:induction false} MonthKnown(m: nat, mt: string)
    requires 1 <= m <= 12 && Spells(mt, MonthNames[m - 1])
    ensures Position(MonthNames, LowerText(mt)) == Some(m)
  {
    SpellsLower(mt, MonthNames[m - 1]);
    MonthPosition(m);
  }

  lemma {:induction false} MonthPosition(m: nat)
    requires 1 <= m <= 12
    ensures Position(MonthNames, MonthNames[m - 1]) == Some(m)
  {
    NameFacts();
    PositionOf(MonthNames, m - 1);
  }

  /** A digit is not whitespace. */
  lemma {:induction false} DigitNotSpace(c: char)
    requires IsDigit(c)
    ensures !IsSpace(c)
  {
  }

  /** A letter is not whitespace. */
  lemma {:induction false} LetterNotSpace(c: char)
    requires 'a' <= Lower(c) <= 'z'
    ensures !IsSpace(c)
  {
  }

  /** A name's first character is a letter, so not whitespace. */
  lemma {:induction false} NameNotSpace(names: seq<string>, i: nat, t: string)
    requires names == WeekdaysByLength || names == MonthsByLength
    requires i < |names| && Spells(t, names[i])
    ensures t != [] && !IsSpace(t[0])
  {
    assert forall j :: 0 <= j < |names| ==> |names[j]| >= 3 && 'a' <= names[j][0] <= 'z';
    assert Lower(t[0]) == names[i][0];
    LetterNotSpace(t[0]);
  }

  // ---------------------------------------------------------------------
  // `%A, %B %d`

  lemma {:induction false} Nest6(x1: string, x2: string, x3: string, x4: string, x5: string, x6: string)
    ensures x1 + x2 + x3 + x4 + x5 + x6 == x1 + (x2 + (x3 + (x4 + (x5 + x6))))
  {
  }

  /** Splitting the text that stands at `p`. */
  lemma {:induction false} Peel(s: string, p: nat, x: string, y: string)
    requires p <= |s| && s[p..] == x + y
    ensures p + |x| <= |s| && s[p..p + |x|] == x && s[p + |x|..] == y
  {
    assert s[p..p + |x|] == s[p..][..|x|];
    assert s[p + |x|..] == s[p..][|x|..];
  }

  /** Where the parts of `wt + ", " + mt + " " + dt + tail` stand. */
  lemma {:induction false} WeekdayMonthDayLayout(d: nat, wt: string, mt: string, dt: string, tail: string, s: string)
    requires Numeral(dt, d) && (tail == [] || !IsDigit(tail[0]))
    requires s == wt + ", " + mt + " " + dt + tail
    ensures var a := |wt|;
            && a + 2 + |mt| < |s| && s[0..a] == wt && s[a] == ',' && s[a + 1] == ' '
            && s[a + 2..a + 2 + |mt|] == mt && s[a + 2 + |mt|] == ' ' && NumeralAt(s, a + 3 + |mt|, dt, d)
            && |s| == a + 3 + |mt| + |dt| + |tail|
  {
    var a := |wt|;
    var p := a + 2;
    var b := p + |mt|;
    var e := b + 1 + |dt|;
    Nest6(wt, ", ", mt, " ", dt, tail);
    assert s[0..] == s;
    Peel(s, 0, wt, ", " + (mt + (" " + (dt + tail))));
    Peel(s, a, ", ", mt + (" " + (dt + tail)));
    Peel(s, p, mt, " " + (dt + tail));
    Peel(s, b, " ", dt + tail);
    Peel(s, b + 1, dt, tail);
    assert s[a] == ',' && s[a + 1] == ' ' && s[b] == ' ';
    if |dt| != 2 && e < |s| {
      assert s[e] == tail[0];
    }
  }

  /** `%A, %B %d` over a weekday name, a month name (both in any case), a day numeral and `tail`. */
  lemma {:induction false} WeekdayMonthDayMatch(kw: nat, km: nat, d: nat, wt: string, mt: string, dt: string, tail: string, s: string)
    requires kw < 7 && Spells(wt, WeekdaysByLength[kw])
    requires km < 12 && Spells(mt, MonthsByLength[km])
    requires 1 <= d <= 31 && Numeral(dt, d)
    requires tail == [] || !IsDigit(tail[0])
    requires s == wt + ", " + mt + " " + dt + tail
    ensures MatchFrom(WeekdayMonthDay, 0, s, 0)
            == Some(Match([Capture(WeekdayName, wt), Capture(MonthName, mt), Capture(Day, dt)], |wt| + |mt| + |dt| + 3))
  {
    WeekdayMonthDayLayout(d, wt, mt, dt, tail, s);
    WeekdayMonthDayAt(kw, km, d, wt, mt, dt, s);
  }

  /** `%A, %B %d` over the parts of a date, wherever they come from. */
  lemma {:induction false} WeekdayMonthDayAt(kw: nat, km: nat, d: nat, wt: string, mt: string, dt: string, s: string)
    requires kw < 7 && Spells(wt, WeekdaysByLength[kw])
    requires km < 12 && Spells(mt, MonthsByLength[km])
    requires 1 <= d <= 31
    requires var a := |wt|;
             && a + 2 + |mt| < |s| && s[0..a] == wt && s[a] == ',' && s[a + 1] == ' '
             && s[a + 2..a + 2 + |mt|] == mt && s[a + 2 + |mt|] == ' ' && NumeralAt(s, a + 3 + |mt|, dt, d)
    ensures MatchFrom(WeekdayMonthDay, 0, s, 0)
            == Some(Match([Capture(WeekdayName, wt), Capture(MonthName, mt), Capture(Day, dt)], |wt| + |mt| + |dt| + 3))
  {
    var a := |wt|;
    var m3 := Extend(MonthName, mt, Extend(Day, dt, Match([], a + 3 + |mt| + |dt|)));
    CommaMonthDay(km, d, mt, dt, s, a);
    WeekdayHead(kw, wt, s, m3);
    assert Extend(WeekdayName, wt, m3).captures == [Capture(WeekdayName, wt), Capture(MonthName, mt), Capture(Day, dt)];
  }

  /** `%A`, item 0 of `%A, %B %d`, followed by a match `m` of the rest. */
  lemma {:induction false} WeekdayHead(kw: nat, wt: string, s: string, m: Match)
    requires kw < 7 && Spells(wt, WeekdaysByLength[kw]) && |wt| <= |s| && s[0..|wt|] == wt
    requires MatchFrom(WeekdayMonthDay, 1, s, |wt|) == Some(m)
    ensures MatchFrom(WeekdayMonthDay, 0, s, 0) == Some(Extend(WeekdayName, wt, m))
  {
    DistinctKeys(WeekdayName);
    NameField(WeekdayName, WeekdaysByLength, WeekdayMonthDay, 0, s, 0, kw, wt, m);
  }

  /** `,\s+%B\s+%d`, items 1 to 5 of `%A, %B %d`, from position `a` on. */
  lemma {:induction false} CommaMonthDay(km: nat, d: nat, mt: string, dt: string, s: string, a: nat)
    requires km < 12 && Spells(mt, MonthsByLength[km]) && 1 <= d <= 31
    requires a + 2 + |mt| < |s| && s[a] == ',' && s[a + 1] == ' ' && s[a + 2..a + 2 + |mt|] == mt
    requires s[a + 2 + |mt|] == ' ' && NumeralAt(s, a + 3 + |mt|, dt, d)
    ensures MatchFrom(WeekdayMonthDay, 1, s, a)
            == Some(Extend(MonthName, mt, Extend(Day, dt, Match([], a + 3 + |mt| + |dt|))))
  {
    var m3 := Extend(MonthName, mt, Extend(Day, dt, Match([], a + 3 + |mt| + |dt|)));
    MonthDay(km, d, mt, dt, s, a + 2);
    NameNotSpace(MonthsByLength, km, mt);
    assert s[a + 2] == mt[0];
    CommaSpace(s, a, m3);
  }

  /** `,\s+`, items 1 and 2 of `%A, %B %d`, before a match `m` of the rest. */
  lemma {:induction false} CommaSpace(s: string, a: nat, m: Match)
    requires a + 2 < |s| && s[a] == ',' && s[a + 1] == ' ' && !IsSpace(s[a + 2])
    requires MatchFrom(WeekdayMonthDay, 3, s, a + 2) == Some(m)
    ensures MatchFrom(WeekdayMonthDay, 1, s, a) == Some(m)
  {
    SpaceField(WeekdayMonthDay, 2, s, a + 1, m);
    LitField(WeekdayMonthDay, 1, ',', s, a, m);
  }

  /** `%B\s+%d`, items 3 to 5 of `%A, %B %d`, from position `p` on. */
  lemma {:induction false} MonthDay(km: nat, d: nat, mt: string, dt: string, s: string, p: nat)
    requires km < 12 && Spells(mt, MonthsByLength[km]) && 1 <= d <= 31
    requires p + |mt| < |s| && s[p..p + |mt|] == mt && s[p + |mt|] == ' ' && NumeralAt(s, p + 1 + |mt|, dt, d)
    ensures MatchFrom(WeekdayMonthDay, 3, s, p)
            == Some(Extend(MonthName, mt, Extend(Day, dt, Match([], p + 1 + |mt| + |dt|))))
  {
    var q := p + |mt|;
    SpaceDay(d, dt, s, q);
    DistinctKeys(MonthName);
    NameField(MonthName, MonthsByLength, WeekdayMonthDay, 3, s, p, km, mt, Extend(Day, dt, Match([], q + 1 + |dt|)));
  }

  /** `\s+%d`, the last two items of `%A, %B %d`, from position `q` on. */
  lemma {:induction false} SpaceDay(d: nat, dt: string, s: string, q: nat)
    requires 1 <= d <= 31 && q < |s| && s[q] == ' ' && NumeralAt(s, q + 1, dt, d)
    ensures MatchFrom(WeekdayMonthDay, 4, s, q) == Some(Extend(Day, dt, Match([], q + 1 + |dt|)))
  {
    var m6 := Match([], q + 1 + |dt|);
    assert MatchFrom(WeekdayMonthDay, 6, s, q + 1 + |dt|) == Some(m6);
    NumberField(Day, WeekdayMonthDay, 5, s, q + 1, dt, d, m6);
    NumeralChars(s, q + 1, dt, d);
    DigitNotSpace(s[q + 1]);
    SpaceField(WeekdayMonthDay, 4, s, q, Extend(Day, dt, m6));
  }

  /** The fields `_strptime` assembles for a date written with a month name:
      an optional weekday name that is only looked up, a month name, a day
      and an optional year (1900 without one), and no time of day. */
  lemma {:induction false} NamedDateBuild(caps: seq<Capture>, y: int, m: int, d: int)
    requires Lookup(caps, WeekdayName).None? || Position(WeekdayNames, LowerText(Lookup(caps, WeekdayName).value)).Some?
    requires Lookup(caps, Month).None? && Lookup(caps, MonthName).Some?
    requires Position(MonthNames, LowerText(Lookup(caps, MonthName).value)) == Some(m)
    requires Lookup(caps, Year).None? ==> y == 1900
    requires Lookup(caps, Year).Some? ==> Number(Lookup(caps, Year).value) == y
    requires Lookup(caps, Day).Some? && Number(Lookup(caps, Day).value) == d
    requires Lookup(caps, AmPm).None? && Lookup(caps, Hour24).None? && Lookup(caps, Hour12).None?
    requires Lookup(caps, Minute).None?
    ensures Build(caps) == if ValidDate(y, m, d) then Ok(DateTime(y, m, d, 0, 0, 0)) else Err(OutOfRange)
  {
  }

  /** The groups of `%A, %B %d` give the month and day in 1900; the weekday
      is looked up and otherwise ignored, and a day the month does not
      have in 1900 (February 29 among them) is refused. */
  lemma {:induction false} WeekdayMonthDayBuild(m: int, d: int, wt: string, mt: string, dt: string)
    requires Position(WeekdayNames, LowerText(wt)).Some?
    requires Position(MonthNames, LowerText(mt)) == Some(m)
    requires Number(dt) == d
    ensures Build([Capture(WeekdayName, wt), Capture(MonthName, mt), Capture(Day, dt)])
            == if ValidDate(1900, m, d) then Ok(DateTime(1900, m, d, 0, 0, 0)) else Err(OutOfRange)
  {
    Lookup3(Capture(WeekdayName, wt), Capture(MonthName, mt), Capture(Day, dt));
    NamedDateBuild([Capture(WeekdayName, wt), Capture(MonthName, mt), Capture(Day, dt)], 1900, m, d);
  }

  /** `strptime(t, "%A, %B %d")` over a weekday, a month and a day numeral
      gives that month and day in 1900 whichever weekday is named, and
      refuses any text after the day. */
  lemma {:induction false} WeekdayMonthDayParse(w: nat, m: nat, d: nat, wt: string, mt: string, dt: string, tail: string)
    requires w < 7 && Spells(wt, WeekdayNames[w])
    requires 1 <= m <= 12 && Spells(mt, MonthNames[m - 1])
    requires 1 <= d <= 31 && Numeral(dt, d)
    requires tail == [] || !IsDigit(tail[0])
    ensures Parse(WeekdayMonthDay, wt + ", " + mt + " " + dt + tail)
            == if tail != [] then Err(UnconvertedDataRemains)
               else if ValidDate(1900, m, d) then Ok(DateTime(1900, m, d, 0, 0, 0))
               else Err(OutOfRange)
  {
    var s := wt + ", " + mt + " " + dt + tail;
    WeekdaySlotOf(w);
    MonthSlotOf(m - 1);
    WeekdayMonthDayMatch(WeekdaySlot[w], MonthSlot[m - 1], d, wt, mt, dt, tail, s);
    WeekdayKnown(w, wt);
    MonthKnown(m, mt);
    NumberNumeral(dt, d);
    WeekdayMonthDayBuild(m, d, wt, mt, dt);
  }

  // ---------------------------------------------------------------------
  // `%B %d, %Y`

  /** Where the parts of `mt + " " + dt + ", " + Pad4(y) + tail` stand. */
  lemma {:induction false} MonthDayYearLayout(d: nat, y: nat, mt: string, dt: string, tail: string, s: string)
    requires Numeral(dt, d) && y <= 9999
    requires s == mt + " " + dt + ", " + Pad4(y) + tail
    ensures var b := |mt|;
            var c := b + 1 + |dt|;
            && c + 6 <= |s| && s[0..b] == mt && s[b] == ' ' && NumeralAt(s, b + 1, dt, d)
            && s[c] == ',' && s[c + 1] == ' ' && s[c + 2..c + 6] == Pad4(y) && |s| == c + 6 + |tail|
  {
    var b := |mt|;
    var c := b + 1 + |dt|;
    Nest6(mt, " ", dt, ", ", Pad4(y), tail);
    assert s[0..] == s;
    Peel(s, 0, mt, " " + (dt + (", " + (Pad4(y) + tail))));
    Peel(s, b, " ", dt + (", " + (Pad4(y) + tail)));
    Peel(s, b + 1, dt, ", " + (Pad4(y) + tail));
    Peel(s, c, ", ", Pad4(y) + tail);
    Peel(s, c + 2, Pad4(y), tail);
    assert s[b] == ' ' && s[c] == ',' && s[c + 1] == ' ';
    assert s[b + 1..b + 1 + |dt|] == dt;
  }

  /** `%B %d, %Y` over a month name in any case, a day numeral, a four-digit year and `tail`. */
  lemma {:induction false} MonthDayYearMatch(km: nat, d: nat, y: nat, mt: string, dt: string, tail: string, s: string)
    requires km < 12 && Spells(mt, MonthsByLength[km])
    requires 1 <= d <= 31 && Numeral(dt, d) && y <= 9999
    requires s == mt + " " + dt + ", " + Pad4(y) + tail
    ensures MatchFrom(MonthDayYear, 0, s, 0)
            == Some(Match([Capture(MonthName, mt), Capture(Day, dt), Capture(Year, Pad4(y))], |mt| + |dt| + 7))
  {
    MonthDayYearLayout(d, y, mt, dt, tail, s);
    MonthDayYearAt(km, d, y, mt, dt, s);
  }

  /** `%B %d, %Y` over the parts of a date, wherever they come from. */
  lemma {:induction false} MonthDayYearAt(km: nat, d: nat, y: nat, mt: string, dt: string, s: string)
    requires km < 12 && Spells(mt, MonthsByLength[km])
    requires 1 <= d <= 31 && y <= 9999
    requires var b := |mt|;
             var c := b + 1 + |dt|;
             && c + 6 <= |s| && s[0..b] == mt && s[b] == ' ' && NumeralAt(s, b + 1, dt, d)
             && s[c] == ',' && s[c + 1] == ' ' && s[c + 2..c + 6] == Pad4(y)
    ensures MatchFrom(MonthDayYear, 0, s, 0)
            == Some(Match([Capture(MonthName, mt), Capture(Day, dt), Capture(Year, Pad4(y))], |mt| + |dt| + 7))
  {
    var b := |mt|;
    var m2 := Extend(Day, dt, Extend(Year, Pad4(y), Match([], b + 7 + |dt|)));
    DayCommaYear(d, y, dt, s, b);
    MonthHead(km, mt, s, m2);
    assert Extend(MonthName, mt, m2).captures == [Capture(MonthName, mt), Capture(Day, dt), Capture(Year, Pad4(y))];
  }

  /** `%B`, item 0 of `%B %d, %Y`, followed by a match `m` of the rest. */
  lemma {:induction false} MonthHead(km: nat, mt: string, s: string, m: Match)
    requires km < 12 && Spells(mt, MonthsByLength[km]) && |mt| <= |s| && s[0..|mt|] == mt
    requires MatchFrom(MonthDayYear, 1, s, |mt|) == Some(m)
    ensures MatchFrom(MonthDayYear, 0, s, 0) == Some(Extend(MonthName, mt, m))
  {
    DistinctKeys(MonthName);
    NameField(MonthName, MonthsByLength, MonthDayYear, 0, s, 0, km, mt, m);
  }

  /** `\s+%d,\s+%Y`, items 1 to 5 of `%B %d, %Y`, from position `b` on. */
  lemma {:induction false} DayCommaYear(d: nat, y: nat, dt: string, s: string, b: nat)
    requires 1 <= d <= 31 && y <= 9999
    requires var c := b + 1 + |dt|;
             && c + 6 <= |s| && s[b] == ' ' && NumeralAt(s, b + 1, dt, d)
             && s[c] == ',' && s[c + 1] == ' ' && s[c + 2..c + 6] == Pad4(y)
    ensures MatchFrom(MonthDayYear, 1, s, b)
            == Some(Extend(Day, dt, Extend(Year, Pad4(y), Match([], b + 7 + |dt|))))
  {
    var c := b + 1 + |dt|;
    var m5 := Extend(Year, Pad4(y), Match([], c + 6));
    CommaYear(y, s, c);
    NumberField(Day, MonthDayYear, 2, s, b + 1, dt, d, m5);
    NumeralChars(s, b + 1, dt, d);
    DigitNotSpace(s[b + 1]);
    SpaceField(MonthDayYear, 1, s, b, Extend(Day, dt, m5));
  }

  /** `,\s+%Y`, items 3 to 5 of `%B %d, %Y`, from position `c` on. */
  lemma {:induction false} CommaYear(y: nat, s: string, c: nat)
    requires y <= 9999 && c + 6 <= |s| && s[c] == ',' && s[c + 1] == ' ' && s[c + 2..c + 6] == Pad4(y)
    ensures MatchFrom(MonthDayYear, 3, s, c) == Some(Extend(Year, Pad4(y), Match([], c + 6)))
  {
    var m6 := Match([], c + 6);
    assert MatchFrom(MonthDayYear, 6, s, c + 6) == Some(m6);
    YearField(MonthDayYear, 5, s, c + 2, y, m6);
    assert s[c + 2] == Pad4(y)[0] == DigitChar(y / 100 / 10);
    DigitNotSpace(s[c + 2]);
    SpaceField(MonthDayYear, 4, s, c + 1, Extend(Year, Pad4(y), m6));
    LitField(MonthDayYear, 3, ',', s, c, Extend(Year, Pad4(y), m6));
  }

  /** The groups of `%B %d, %Y` give the date when it exists, and are refused otherwise. */
  lemma {:induction false} MonthDayYearBuild(y: nat, m: int, d: int, mt: string, dt: string)
    requires y <= 9999 && Position(MonthNames, LowerText(mt)) == Some(m)
    requires Number(dt) == d && Number(Pad4(y)) == y
    ensures Build([Capture(MonthName, mt), Capture(Day, dt), Capture(Year, Pad4(y))])
            == if ValidDate(y, m, d) then Ok(DateTime(y, m, d, 0, 0, 0)) else Err(OutOfRange)
  {
    Lookup3(Capture(MonthName, mt), Capture(Day, dt), Capture(Year, Pad4(y)));
    NamedDateBuild([Capture(MonthName, mt), Capture(Day, dt), Capture(Year, Pad4(y))], y, m, d);
  }

  /** `strptime(t, "%B %d, %Y")` gives the date named, refuses a date that
      does not exist (year 0, February 29 of a common year, ...), and
      refuses any text after the year. */
  lemma {:induction false} MonthDayYearParse(y: nat, m: nat, d: nat, mt: string, dt: string, tail: string)
    requires y <= 9999 && 1 <= m <= 12 && Spells(mt, MonthNames[m - 1])
    requires 1 <= d <= 31 && Numeral(dt, d)
    ensures Parse(MonthDayYear, mt + " " + dt + ", " + Pad4(y) + tail)
            == if tail != [] then Err(UnconvertedDataRemains)
               else if ValidDate(y, m, d) then Ok(DateTime(y, m, d, 0, 0, 0))
               else Err(OutOfRange)
  {
    MonthSlotOf(m - 1);
    MonthDayYearMatch(MonthSlot[m - 1], d, y, mt, dt, tail, mt + " " + dt + ", " + Pad4(y) + tail);
    MonthKnown(m, mt);
    NumberNumeral(dt, d);
    NumberPad4(y);
    MonthDayYearBuild(y, m, d, mt, dt);
  }

  /** A text that starts with a weekday name matches neither `%B %d, %Y` nor `%Y-%m-%d`. */
  lemma {:induction false} WeekdayFirstRefused(w: nat, wt: string, rest: string)
    requires w < 7 && Spells(wt, WeekdayNames[w])
    ensures Parse(MonthDayYear, wt + rest) == Err(DoesNotMatch)
    ensures Parse(IsoDate, wt + rest) == Err(DoesNotMatch)
  {
    var s := wt + rest;
    var v := WeekdayNames[w];
    NameFacts();
    NameKeys();
    assert s[0..|wt|] == wt;
    NameAtText(wt, v, s, 0);
    NoName(MonthsByLength, v, s, 0);
    GroupFails(MonthName, MonthDayYear, 0, s, 0);
    assert Lower(s[0]) == v[0];
    IsoDateNeedsDigit(s);
  }

  /** A name group refuses a text that starts with a digit, so neither
      `%A, %B %d` nor `%B %d, %Y` accepts it. */
  lemma {:induction false} NameNeedsLetter(d: Directive, fmt: seq<Item>, s: string)
    requires d == WeekdayName || d == MonthName
    requires |fmt| > 0 && fmt[0] == Field(d)
    requires s != [] && IsDigit(s[0])
    ensures Parse(fmt, s) == Err(DoesNotMatch)
  {
    var names := NamesOf(d);
    var alts := Alternatives(d);
    GroupFacts();
    forall a | 0 <= a < |alts| ensures !AltMatches(alts[a], s, 0) {
      assert alts[a] == Name(names[a]);
      assert Lower(s[0 + 0]) != names[a][0];
    }
    GroupFails(d, fmt, 0, s, 0);
  }

  /** A text that starts with a month name does not match `%A, %B %d`. */
  lemma {:induction false} MonthFirstRefused(m: nat, mt: string, rest: string)
    requires 1 <= m <= 12 && Spells(mt, MonthNames[m - 1])
    ensures Parse(WeekdayMonthDay, mt + rest) == Err(DoesNotMatch)
  {
    var s := mt + rest;
    var v := MonthNames[m - 1];
    NameFacts();
    GroupFacts();
    assert s[0..|mt|] == mt;
    NameAtText(mt, v, s, 0);
    NoName(WeekdaysByLength, v, s, 0);
    GroupFails(WeekdayName, WeekdayMonthDay, 0, s, 0);
  }
}
