/** The firmware-version gate of the BL600 control daemon: parse_uint, the
    in-place version parser, the lexicographic comparison against the minimum
    firmware and the three-stage verdict of version_firmware_check. */
module Firmware {
  import opened Wrappers
  import opened LibC
  import opened Strtok

  /** The delimiters version_firmware_parse hands to strtok_r: ".\n\r". */
  const SEPARATORS: set<char> := {'.', '\n', '\r'}

  /** The record header that precedes the version in the answer to "AT I 3". */
  const PREFIX: seq<char> := "10\t3\t"

  /** BL600_VERSION_FIRMWARE_MIN. */
  const MINIMUM: seq<nat> := [1, 8, 88, 0]

  /** The three-argument parse_uint: strtoul in base 0; it succeeds when the
      tail pointer moved, and reports the value and where the tail starts. */
  function ParseUintTail(s: seq<char>): (r: (bool, U32, nat))
    ensures r.2 <= |s|
    ensures r.0 <==> r.2 > 0
    ensures r.0 ==> IsHexDigit(s[r.2 - 1])
    ensures !r.0 ==> r.1 == 0
  {
    var c := Strtoul(s);
    (c.end != 0, c.value, c.end)
  }

  /** The two-argument parse_uint: the number must take up the whole string. */
  function ParseUint(s: seq<char>): (r: (bool, U32))
    ensures r.0 ==> s != [] && IsHexDigit(s[|s| - 1])
  {
    var (ok, n, tail) := ParseUintTail(s);
    (ok && tail == |s|, n)
  }

  /** parse_uint accepts the decimal numeral of every 32-bit value and reads back its value. */
  lemma ParseUintDecimal(n: nat)
    requires n <= ULONG_MAX
    ensures ParseUint(DecimalString(n)) == (true, n)
  {
    StrtoulDecimal(n, []);
    assert DecimalString(n) + [] == DecimalString(n);
  }

  /** Any character that cannot continue a decimal numeral makes parse_uint fail,
      a trailing space or letter included. */
  lemma ParseUintRejectsTrailing(n: nat, c: char)
    requires n <= ULONG_MAX
    requires !IsDecimalDigit(c)
    ensures !ParseUint(DecimalString(n) + [c]).0
  {
    if c == 'x' || c == 'X' {
      var d := DecimalString(n);
      var s := d + [c];
      assert s[0] == d[0];
      assert SkipSpaces(s, 0) == 0;
      if n == 0 {
        assert s == ['0', c];
        assert DigitRunEnd(s, 1, 8) == 1;
      } else {
        DigitRunEndOfNumeral(d, [c], 10, 0);
      }
    } else {
      StrtoulDecimal(n, [c]);
    }
  }

  /** Base 0 reads a leading zero as octal: "088" fails, "010" is eight. */
  lemma ParseUintLeadingZero()
    ensures !ParseUint("088").0
    ensures ParseUint("010") == (true, 8)
  {
    StrtoulLeadingZeroIsOctal();
  }

  /** The version as the first four tokens give it, when all four are numbers;
      tokens after the fourth play no part. */
  function VersionFields(toks: seq<seq<char>>): Option<seq<U32>>
  {
    if && |toks| >= 4
       && ParseUint(toks[0]).0 && ParseUint(toks[1]).0
       && ParseUint(toks[2]).0 && ParseUint(toks[3]).0
    then
      Some([ParseUint(toks[0]).1, ParseUint(toks[1]).1, ParseUint(toks[2]).1, ParseUint(toks[3]).1])
    else
      None
  }

  /** What strtok_r has done to the buffer `b` that was `s` when version_firmware_parse
      began, once it has scanned up to `save`: nothing from `save` on, and before it
      only delimiters overwritten by NUL. */
  ghost predicate Scanned(b: seq<char>, s: seq<char>, save: nat) {
    && SeparatorsCleared(b, s) && save <= |s|
    && (forall k :: save <= k < |s| ==> b[k] == s[k])
  }

  /** `b` is `s` with some of its separators overwritten by NUL. */
  ghost predicate SeparatorsCleared(b: seq<char>, s: seq<char>) {
    && |b| == |s|
    && (forall k :: 0 <= k < |s| ==> b[k] == s[k] || (s[k] in SEPARATORS && b[k] == '\0'))
  }

  /** The state of version_firmware_parse's loop over the buffer `b`, which was `s`
      when it began and whose tokens from `p` are `toks`: `i` numbers parsed into `vs`,
      and `t` the token found by the strtok_r call that scanned from `prev`. */
  ghost predicate Progress(b: seq<char>, s: seq<char>, toks: seq<seq<char>>, prev: nat,
                           t: Option<Span>, save: nat, i: nat, vs: seq<U32>)
  {
    && i < 4 && |vs| == 4 && prev <= |s|
    && t == NextToken(s, SEPARATORS, prev)
    && SeparatorsCleared(b, s)
    && (t.Some? ==>
          && prev < save == Resume(s, t.value) && Scanned(b, s, save)
          && t.value.end <= |b| && b[t.value.start..t.value.end] == s[t.value.start..t.value.end])
    && |toks| >= i && toks[i..] == Tokens(s, SEPARATORS, prev)
    && forall k :: 0 <= k < i ==> ParseUint(toks[k]) == (true, vs[k])
  }

  /** One strtok_r call on a buffer scanned up to `from` finds the token the original
      string has at that point, and leaves the buffer scanned up to where the next
      call resumes. */
  lemma StrtokStep(before: seq<char>, after: seq<char>, s: seq<char>, from: nat, t: Option<Span>, save: nat)
    requires Scanned(before, s, from)
    requires (t, save, after) == StrtokCall(before, SEPARATORS, from)
    ensures t == NextToken(s, SEPARATORS, from)
    ensures SeparatorsCleared(after, s)
    ensures t.Some? ==> from < save == Resume(s, t.value) && Scanned(after, s, save)
    ensures t.Some? ==> after[t.value.start..t.value.end] == s[t.value.start..t.value.end]
  {
    NextTokenAgree(before, s, SEPARATORS, from);
    if t.Some? {
      var e := t.value.end;
      if !AtEnd(before, e) {
        assert before[e] in SEPARATORS;
        assert after[t.value.start..e] == before[t.value.start..e];
      }
    }
  }

  /** The first strtok_r call starts the loop. */
  lemma ProgressStart(s: seq<char>, p: nat, t: Option<Span>, save: nat, b: seq<char>, vs: seq<U32>)
    requires p <= |s| && |vs| == 4
    requires (t, save, b) == StrtokCall(s, SEPARATORS, p)
    ensures Progress(b, s, Tokens(s, SEPARATORS, p), p, t, save, 0, vs)
  {
    StrtokStep(s, b, s, p, t, save);
  }

  /** The token the loop hands to parse_uint is the next token of the original string;
      what it parses to settles the result once it fails or is the fourth. */
  lemma ProgressParse(b: seq<char>, s: seq<char>, toks: seq<seq<char>>, prev: nat,
                      t: Option<Span>, save: nat, i: nat, vs: seq<U32>, parsed: bool, n: U32)
    requires Progress(b, s, toks, prev, t, save, i, vs) && t.Some?
    requires (parsed, n) == ParseUint(b[t.value.start..t.value.end])
    ensures (parsed, n) == ParseUint(toks[i])
    ensures !parsed ==> VersionFields(toks).None?
    ensures parsed && i == 3 ==> VersionFields(toks) == Some(vs[i := n])
  {
    assert toks[i] == Tokens(s, SEPARATORS, prev)[0];
    FieldsDecided(toks, i, vs[i := n]);
  }

  /** A token that does not parse, or the fourth one that does, settles the verdict
      on the first four tokens. */
  lemma FieldsDecided(toks: seq<seq<char>>, i: nat, v: seq<U32>)
    requires i < |toks| && i < 4 && |v| == 4
    requires forall k :: 0 <= k <= i ==> ParseUint(toks[k]).1 == v[k]
    requires forall k :: 0 <= k < i ==> ParseUint(toks[k]).0
    ensures !ParseUint(toks[i]).0 ==> VersionFields(toks).None?
    ensures ParseUint(toks[i]).0 && i == 3 ==> VersionFields(toks) == Some(v)
  {
    assert v == [v[0], v[1], v[2], v[3]];
  }

  /** After a parsed token, the next strtok_r call carries the loop on. */
  lemma ProgressStep(b: seq<char>, s: seq<char>, toks: seq<seq<char>>, prev: nat,
                     t: Option<Span>, save: nat, i: nat, vs: seq<U32>, n: U32,
                     t': Option<Span>, save': nat, b': seq<char>)
    requires Progress(b, s, toks, prev, t, save, i, vs) && t.Some? && i + 1 < 4
    requires ParseUint(toks[i]) == (true, n)
    requires (t', save', b') == StrtokCall(b, SEPARATORS, save)
    ensures Progress(b', s, toks, save, t', save', i + 1, vs[i := n])
  {
    StrtokStep(b, b', s, save, t', save');
    assert toks[i + 1..] == toks[i..][1..];
  }

  /** When strtok_r finds no more tokens, fewer than four were there. */
  lemma ProgressEnd(b: seq<char>, s: seq<char>, toks: seq<seq<char>>, prev: nat,
                    t: Option<Span>, save: nat, i: nat, vs: seq<U32>)
    requires Progress(b, s, toks, prev, t, save, i, vs) && t.None?
    ensures VersionFields(toks).None?
  {
    assert toks[i..] == [];
  }

  /** version_firmware_parse(p, v): split the string at `p` with strtok_r on
      ".\n\r" and parse the first four tokens into `v`, stopping at the first
      token that fails and as soon as four have parsed. strtok_r writes NULs
      over the delimiters that end the tokens it returns. */
  method VersionFirmwareParse(buf: array<char>, p: nat, v: array<U32>) returns (ok: bool)
    requires p <= buf.Length && v.Length == 4
    modifies buf, v
    ensures var fields := VersionFields(Tokens(old(buf[..]), SEPARATORS, p));
      && (ok <==> fields.Some?)
      && (ok ==> v[..] == fields.value)
    ensures SeparatorsCleared(buf[..], old(buf[..]))
  {
    ghost var s := buf[..];
    ghost var toks := Tokens(s, SEPARATORS, p);
    ghost var prev := p;
    var i := 0;
    var t, save := StrtokR(buf, SEPARATORS, p);
    ProgressStart(s, p, t, save, buf[..], v[..]);
    while t.Some?
      invariant Progress(buf[..], s, toks, prev, t, save, i, v[..])
      decreases |s| - prev
    {
      // parse_uint reads the C string at the token, which the NUL strtok_r wrote ends
      var (parsed, n) := ParseUint(buf[t.value.start..t.value.end]);
      ProgressParse(buf[..], s, toks, prev, t, save, i, v[..], parsed, n);
      ghost var vs := v[..];
      v[i] := n;
      if !parsed {
        return false;
      }
      if i + 1 == 4 {
        return true;
      }
      ghost var b := buf[..];
      var t', save' := StrtokR(buf, SEPARATORS, save);
      ProgressStep(b, s, toks, prev, t, save, i, vs, n, t', save', buf[..]);
      i, prev, t, save := i + 1, save, t', save';
    }
    ProgressEnd(buf[..], s, toks, prev, t, save, i, v[..]);
    return false;
  }

  // ------------------------------------------------------------ well-formed versions

  /** The text "a.b.c.d" of a version, each number in decimal without leading zeros. */
  function Dotted(v: seq<nat>): seq<char>
    requires |v| == 4
  {
    DecimalString(v[0]) + "." + (DecimalString(v[1]) + "." + (DecimalString(v[2]) + "." + DecimalString(v[3])))
  }

  /** A decimal numeral holds neither a separator nor a NUL. */
  lemma NumeralIsToken(n: nat)
    ensures IsToken(DecimalString(n), SEPARATORS)
  {
    var d := DecimalString(n);
    forall c | c in d ensures c !in SEPARATORS && c != '\0' {
      var k :| 0 <= k < |d| && d[k] == c;
      assert IsDecimalDigit(d[k]);
    }
  }

  /** A token followed by a separator is the first token, then come the tokens of
      what follows. */
  lemma TokenThen(w: seq<char>, c: char, rest: seq<char>)
    requires IsToken(w, SEPARATORS) && c in SEPARATORS
    ensures Tokens(w + [c] + rest, SEPARATORS, 0) == [w] + Tokens(rest, SEPARATORS, 0)
  {
    TokensSplit(w, c, rest, SEPARATORS);
    SingleToken(w, SEPARATORS);
  }

  /** A token followed by nothing, a NUL or a separator is the first token. */
  lemma TokenFirst(w: seq<char>, tail: seq<char>)
    requires IsToken(w, SEPARATORS)
    requires tail == [] || tail[0] == '\0' || tail[0] in SEPARATORS
    ensures var ts := Tokens(w + tail, SEPARATORS, 0);
      |ts| >= 1 && ts[0] == w
  {
    SingleToken(w, SEPARATORS);
    if tail != [] && tail[0] in SEPARATORS {
      assert w + tail == w + [tail[0]] + tail[1..];
      TokenThen(w, tail[0], tail[1..]);
    } else {
      TokensStopAtNul(w, tail, SEPARATORS, 0);
    }
  }

  /** The tokens of "a.b.c.d" followed by a tail that ends the last word. */
  lemma JoinedTokens(w0: seq<char>, w1: seq<char>, w2: seq<char>, w3: seq<char>, tail: seq<char>)
    requires IsToken(w0, SEPARATORS) && IsToken(w1, SEPARATORS)
    requires IsToken(w2, SEPARATORS) && IsToken(w3, SEPARATORS)
    requires tail == [] || tail[0] == '\0' || tail[0] in SEPARATORS
    ensures var ts := Tokens(w0 + ['.'] + (w1 + ['.'] + (w2 + ['.'] + (w3 + tail))), SEPARATORS, 0);
      |ts| >= 4 && ts[0] == w0 && ts[1] == w1 && ts[2] == w2 && ts[3] == w3
  {
    var s3 := w3 + tail;
    var s2 := w2 + ['.'] + s3;
    var s1 := w1 + ['.'] + s2;
    var s0 := w0 + ['.'] + s1;
    TokenFirst(w3, tail);
    TokenThen(w2, '.', s3);
    TokenThen(w1, '.', s2);
    TokenThen(w0, '.', s1);
    FourHeads(Tokens(s0, SEPARATORS, 0), Tokens(s1, SEPARATORS, 0), Tokens(s2, SEPARATORS, 0),
      Tokens(s3, SEPARATORS, 0), w0, w1, w2, w3);
  }

  lemma FourHeads<T>(t0: seq<T>, t1: seq<T>, t2: seq<T>, t3: seq<T>, w0: T, w1: T, w2: T, w3: T)
    requires t0 == [w0] + t1 && t1 == [w1] + t2 && t2 == [w2] + t3
    requires |t3| >= 1 && t3[0] == w3
    ensures |t0| >= 4 && t0[0] == w0 && t0[1] == w1 && t0[2] == w2 && t0[3] == w3
  {
  }

  /** "a.b.c.d" and a tail, regrouped number by number. */
  lemma DottedRegroup(v: seq<nat>, tail: seq<char>)
    requires |v| == 4
    ensures Dotted(v) + tail == DecimalString(v[0]) + ['.'] + (DecimalString(v[1]) + ['.'] +
      (DecimalString(v[2]) + ['.'] + (DecimalString(v[3]) + tail)))
  {
    var d0, d1, d2, d3 := DecimalString(v[0]), DecimalString(v[1]), DecimalString(v[2]), DecimalString(v[3]);
    ConcatAssoc(d2 + ['.'], d3, tail);
    ConcatAssoc(d1 + ['.'], d2 + ['.'] + d3, tail);
    ConcatAssoc(d0 + ['.'], d1 + ['.'] + (d2 + ['.'] + d3), tail);
  }

  /** The tokens of "a.b.c.d" and a tail that ends the fourth number. */
  lemma DottedTokens(v: seq<nat>, tail: seq<char>)
    requires |v| == 4
    requires tail == [] || tail[0] == '\0' || tail[0] in SEPARATORS
    ensures var ts := Tokens(Dotted(v) + tail, SEPARATORS, 0);
      && |ts| >= 4 && ts[0] == DecimalString(v[0]) && ts[1] == DecimalString(v[1])
      && ts[2] == DecimalString(v[2]) && ts[3] == DecimalString(v[3])
  {
    var d0, d1, d2, d3 := DecimalString(v[0]), DecimalString(v[1]), DecimalString(v[2]), DecimalString(v[3]);
    DottedRegroup(v, tail);
    NumeralIsToken(v[0]);
    NumeralIsToken(v[1]);
    NumeralIsToken(v[2]);
    NumeralIsToken(v[3]);
    JoinedTokens(d0, d1, d2, d3, tail);
  }

  /** Four decimal numerals at the head of the token list are the version. */
  lemma FieldsOfNumerals(ts: seq<seq<char>>, v: seq<nat>)
    requires |v| == 4 && forall k :: 0 <= k < 4 ==> v[k] <= ULONG_MAX
    requires && |ts| >= 4 && ts[0] == DecimalString(v[0]) && ts[1] == DecimalString(v[1])
             && ts[2] == DecimalString(v[2]) && ts[3] == DecimalString(v[3])
    ensures VersionFields(ts) == Some(v)
  {
    ParseUintDecimal(v[0]);
    ParseUintDecimal(v[1]);
    ParseUintDecimal(v[2]);
    ParseUintDecimal(v[3]);
    assert ParseUint(ts[0]) == (true, v[0]) && ParseUint(ts[1]) == (true, v[1]);
    assert ParseUint(ts[2]) == (true, v[2]) && ParseUint(ts[3]) == (true, v[3]);
    assert v == [v[0], v[1], v[2], v[3]];
  }

  /** version_firmware_parse reads "a.b.c.d", whatever follows a separator after it,
      as exactly the four numbers. */
  lemma VersionFieldsOfDotted(v: seq<nat>, tail: seq<char>)
    requires |v| == 4 && forall k :: 0 <= k < 4 ==> v[k] <= ULONG_MAX
    requires tail == [] || tail[0] == '\0' || tail[0] in SEPARATORS
    ensures VersionFields(Tokens(Dotted(v) + tail, SEPARATORS, 0)) == Some(v)
  {
    DottedTokens(v, tail);
    FieldsOfNumerals(Tokens(Dotted(v) + tail, SEPARATORS, 0), v);
  }

  // ------------------------------------------------------------ comparison

  /** version_firmware_compare_le(min, ver): the nested comparison as the code writes it. */
  function CompareLe(min: seq<nat>, ver: seq<nat>): (r: bool)
    requires |min| == 4 && |ver| == 4
    ensures min == ver ==> r
    ensures r ==> min[0] <= ver[0]
    ensures min[0] < ver[0] ==> r
  {
    min[0] < ver[0]
    || (min[0] == ver[0] && (
         min[1] < ver[1]
         || (min[1] == ver[1] && (
              min[2] < ver[2]
              || (min[2] == ver[2] && min[3] <= ver[3])))))
  }

  /** Lexicographic order on equally long sequences: equal up to some position, then
      smaller there or equal throughout. */
  ghost predicate LexLe(a: seq<nat>, b: seq<nat>)
    requires |a| == |b|
  {
    exists k :: 0 <= k <= |a| && a[..k] == b[..k] && (k == |a| || a[k] < b[k])
  }

  lemma CompareLeIsLex(min: seq<nat>, ver: seq<nat>)
    requires |min| == 4 && |ver| == 4
    ensures CompareLe(min, ver) <==> LexLe(min, ver)
  {
    if CompareLe(min, ver) {
      var k := if min[0] < ver[0] then 0
        else if min[1] < ver[1] then 1
        else if min[2] < ver[2] then 2
        else if min[3] < ver[3] then 3
        else 4;
      assert min[..k] == ver[..k];
    }
    if LexLe(min, ver) {
      var k :| 0 <= k <= 4 && min[..k] == ver[..k] && (k == 4 || min[k] < ver[k]);
      forall j | 0 <= j < k ensures min[j] == ver[j] {
        assert min[..k][j] == ver[..k][j];
      }
    }
  }

  /** The minimum itself, and every version above it in an earlier component whatever
      the later ones, passes; one build below the minimum fails. */
  lemma CompareLeBoundaries(a: nat, b: nat, c: nat, d: nat)
    ensures CompareLe(MINIMUM, MINIMUM)
    ensures !CompareLe(MINIMUM, [1, 8, 87, a])
    ensures !CompareLe(MINIMUM, [1, 7, b, c]) && !CompareLe(MINIMUM, [0, d, b, c])
    ensures CompareLe(MINIMUM, [1, 9, b, c]) && CompareLe(MINIMUM, [2, d, b, c])
    ensures CompareLe(MINIMUM, [1, 8, 88, a]) && CompareLe(MINIMUM, [1, 8, 89, a])
  {
  }

  // ------------------------------------------------------------ the check

  /** How version_firmware_check ends, stage by stage. */
  datatype Verdict =
    | ExchangeFailed
    | UnexpectedShape
    | Malformed
    | UpgradeRequired(version: seq<U32>)
    | Ready(version: seq<U32>)

  /** The verdict on the answer to "AT I 3" left in `buffer`: the exchange must have
      succeeded, the record header must occur in the C string, four numbers must follow
      it, and they must be at least the minimum. */
  function FirmwareVerdict(exchanged: bool, buffer: seq<char>): (r: Verdict)
    ensures r == ExchangeFailed <==> !exchanged
    ensures r == UnexpectedShape <==> exchanged && !Contains(CString(buffer), PREFIX)
    ensures r.Ready? || r.UpgradeRequired? ==> |r.version| == 4
    ensures r.Ready? ==> LexLe(MINIMUM, r.version)
    ensures r.UpgradeRequired? ==> !LexLe(MINIMUM, r.version)
  {
    if !exchanged then ExchangeFailed
    else match Strstr(CString(buffer), PREFIX)
      case None => UnexpectedShape
      case Some(at) =>
        match VersionFields(Tokens(buffer, SEPARATORS, at + |PREFIX|))
        case None => Malformed
        case Some(v) =>
          CompareLeIsLex(MINIMUM, v);
          if CompareLe(MINIMUM, v) then Ready(v) else UpgradeRequired(v)
  }

  /** The stages of version_firmware_check after the exchange: strstr for the header,
      version_firmware_parse after it, then the comparison, each run only if the one
      before succeeded. */
  method CheckAnswer(buf: array<char>, exchanged: bool) returns (ok: bool)
    modifies buf
    ensures ok <==> FirmwareVerdict(exchanged, old(buf[..])).Ready?
    ensures SeparatorsCleared(buf[..], old(buf[..]))
  {
    ok := exchanged;
    var p: nat := 0;
    if ok {
      var at := Strstr(CString(buf[..]), PREFIX);
      ok := at.Some?;
      if ok {
        p := at.value + |PREFIX|;
      }
    }
    var v4 := new U32[4](_ => 0);
    if ok {
      ok := VersionFirmwareParse(buf, p, v4);
    }
    if ok {
      ok := CompareLe(MINIMUM, v4[..]);
    }
  }

  /** An answer holding the header, "a.b.c.d" and a tail that ends the last number
      yields that version, and passes exactly when it is at least the minimum. */
  lemma VerdictOfAnswer(v: seq<nat>, tail: seq<char>)
    requires |v| == 4 && forall k :: 0 <= k < 4 ==> v[k] <= ULONG_MAX
    requires tail == [] || tail[0] == '\0' || tail[0] in SEPARATORS
    ensures LexLe(MINIMUM, v) ==> FirmwareVerdict(true, PREFIX + Dotted(v) + tail) == Ready(v)
    ensures !LexLe(MINIMUM, v) ==> FirmwareVerdict(true, PREFIX + Dotted(v) + tail) == UpgradeRequired(v)
  {
    var buffer := PREFIX + (Dotted(v) + tail);
    assert PREFIX + Dotted(v) + tail == buffer;
    CStringKeepsPrefix(PREFIX, Dotted(v) + tail);
    assert OccursAt(CString(buffer), PREFIX, 0);
    assert Strstr(CString(buffer), PREFIX) == Some(0);
    TokensShift(PREFIX, Dotted(v) + tail, SEPARATORS, 0);
    VersionFieldsOfDotted(v, tail);
    CompareLeIsLex(MINIMUM, v);
  }

  /** The text of the minimum version. */
  lemma DottedMinimum()
    ensures Dotted(MINIMUM) == "1.8.88.0"
  {
    assert DecimalString(88) == DecimalString(8) + [DigitChar(8)];
  }

  /** The minimum version one build lower. */
  lemma DottedBuildBelow()
    ensures Dotted([1, 8, 87, 0]) == "1.8.87.0"
  {
    assert DecimalString(87) == DecimalString(8) + [DigitChar(7)];
  }

  /** The answer of a module at the minimum firmware passes, whatever follows the
      line end. */
  lemma AnswerAtMinimum(tail: seq<char>)
    requires tail == [] || tail[0] == '\0' || tail[0] in SEPARATORS
    ensures FirmwareVerdict(true, PREFIX + "1.8.88.0" + tail) == Ready(MINIMUM)
  {
    DottedMinimum();
    VerdictOfAnswer(MINIMUM, tail);
    CompareLeIsLex(MINIMUM, MINIMUM);
  }

  /** One build below the minimum, the module needs an upgrade. */
  lemma AnswerOneBuildLow(tail: seq<char>)
    requires tail == [] || tail[0] == '\0' || tail[0] in SEPARATORS
    ensures FirmwareVerdict(true, PREFIX + "1.8.87.0" + tail) == UpgradeRequired([1, 8, 87, 0])
  {
    DottedBuildBelow();
    VerdictOfAnswer([1, 8, 87, 0], tail);
    CompareLeIsLex(MINIMUM, [1, 8, 87, 0]);
  }

  /** An answer without the record header never reaches the parser. */
  lemma AnswerWithoutHeader(answer: seq<char>)
    requires answer == "ERROR 1\r\n"
    ensures FirmwareVerdict(true, answer) == UnexpectedShape
  {
    assert CString(answer) == answer;
    forall i: nat ensures !OccursAt(answer, PREFIX, i) {
      if i + |PREFIX| <= |answer| {
        assert answer[i..i + |PREFIX|][0] == answer[i];
      }
    }
  }

  /** A token that is not a number stops the parser, whatever follows it. */
  lemma AnswerWithLetter(tail: seq<char>)
    requires tail == [] || tail[0] == '\0' || tail[0] in SEPARATORS
    ensures FirmwareVerdict(true, PREFIX + "1.8.x" + tail) == Malformed
  {
    var rest := "1.8.x" + tail;
    assert PREFIX + "1.8.x" + tail == PREFIX + rest;
    CStringKeepsPrefix(PREFIX, rest);
    assert OccursAt(CString(PREFIX + rest), PREFIX, 0);
    TokensShift(PREFIX, rest, SEPARATORS, 0);
    MalformedTokens(tail);
    ParseUintRejectsLetter();
  }

  /** The third token of "1.8.x" is "x", which strtoul cannot read. */
  lemma MalformedTokens(tail: seq<char>)
    requires tail == [] || tail[0] == '\0' || tail[0] in SEPARATORS
    ensures var ts := Tokens("1.8.x" + tail, SEPARATORS, 0);
      |ts| >= 3 && ts[0] == "1" && ts[1] == "8" && ts[2] == "x"
  {
    var s2 := "x" + tail;
    var s1 := "8" + ['.'] + s2;
    assert "1.8.x" + tail == "1" + ['.'] + s1;
    assert IsToken("1", SEPARATORS) && IsToken("8", SEPARATORS) && IsToken("x", SEPARATORS);
    TokenFirst("x", tail);
    TokenThen("8", '.', s2);
    TokenThen("1", '.', s1);
  }

  /** strtoul reads nothing from a letter that is not a digit. */
  lemma ParseUintRejectsLetter()
    ensures !ParseUint("x").0
  {
    assert SkipSpaces("x", 0) == 0;
  }

  /** strtoul accepts a sign, so a version field "-1" reads as the largest value and
      passes every comparison in its place. */
  lemma AnswerWithNegativeField(tail: seq<char>)
    requires tail == [] || tail[0] == '\0' || tail[0] in SEPARATORS
    ensures FirmwareVerdict(true, PREFIX + "1.8.-1.0" + tail) == Ready([1, 8, ULONG_MAX, 0])
  {
    var rest := "1.8.-1.0" + tail;
    assert PREFIX + "1.8.-1.0" + tail == PREFIX + rest;
    NegativeFieldTokens(tail);
    NegativeFieldParses(Tokens(rest, SEPARATORS, 0));
    VerdictAfterHeader(rest);
  }

  /** The fields "1", "8", "-1", "0" are the version 1, 8, ULONG_MAX, 0. */
  lemma NegativeFieldParses(ts: seq<seq<char>>)
    requires |ts| >= 4 && ts[0] == "1" && ts[1] == "8" && ts[2] == "-1" && ts[3] == "0"
    ensures VersionFields(ts) == Some([1, 8, ULONG_MAX, 0])
  {
    StrtoulNegativeWraps();
    ParseUintSmall();
  }

  /** The fields of "1.8.-1.0" are "1", "8", "-1" and "0". */
  lemma NegativeFieldTokens(tail: seq<char>)
    requires tail == [] || tail[0] == '\0' || tail[0] in SEPARATORS
    ensures var ts := Tokens("1.8.-1.0" + tail, SEPARATORS, 0);
      |ts| >= 4 && ts[0] == "1" && ts[1] == "8" && ts[2] == "-1" && ts[3] == "0"
  {
    assert "1.8.-1.0" + tail == "1" + ['.'] + ("8" + ['.'] + ("-1" + ['.'] + ("0" + tail)));
    assert IsToken("1", SEPARATORS) && IsToken("8", SEPARATORS);
    assert IsToken("-1", SEPARATORS) && IsToken("0", SEPARATORS);
    JoinedTokens("1", "8", "-1", "0", tail);
  }

  /** The one-digit fields of the examples read as themselves. */
  lemma ParseUintSmall()
    ensures ParseUint("0") == (true, 0) && ParseUint("1") == (true, 1) && ParseUint("8") == (true, 8)
  {
    ParseUintDecimal(0);
    ParseUintDecimal(1);
    ParseUintDecimal(8);
  }

  /** An answer that starts with the record header is judged on the tokens after it. */
  lemma VerdictAfterHeader(rest: seq<char>)
    ensures Strstr(CString(PREFIX + rest), PREFIX) == Some(0)
    ensures FirmwareVerdict(true, PREFIX + rest) ==
      match VersionFields(Tokens(rest, SEPARATORS, 0))
      case None => Malformed
      case Some(v) => if CompareLe(MINIMUM, v) then Ready(v) else UpgradeRequired(v)
  {
    CStringKeepsPrefix(PREFIX, rest);
    assert OccursAt(CString(PREFIX + rest), PREFIX, 0);
    TokensShift(PREFIX, rest, SEPARATORS, 0);
  }
}
