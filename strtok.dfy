/** strtok_r as the C library implements it: a token is a maximal run of
    characters that are neither delimiters nor the terminating NUL; delimiters
    before a token are skipped, so a run of them separates like a single one.
    The call writes a NUL over the delimiter that ends the token and resumes
    after it next time. */
module Strtok {
  import opened Wrappers

  /** Position `i` is past the C string: the end of the buffer or a NUL. */
  predicate AtEnd(s: seq<char>, i: nat) {
    i >= |s| || s[i] == '\0'
  }

  /** A token: non-empty, with no delimiter and no NUL in it. */
  predicate IsToken(w: seq<char>, delims: set<char>) {
    w != [] && forall k :: 0 <= k < |w| ==> w[k] !in delims && w[k] != '\0'
  }

  /** The first position at or after `i` that is not a delimiter. */
  function SkipDelims(s: seq<char>, delims: set<char>, i: nat): (j: nat)
    requires i <= |s|
    ensures i <= j <= |s|
    ensures AtEnd(s, j) || s[j] !in delims
    decreases |s| - i
  {
    if !AtEnd(s, i) && s[i] in delims then SkipDelims(s, delims, i + 1) else i
  }

  /** The first position at or after `i` that is a delimiter or the end of the string. */
  function TokenEnd(s: seq<char>, delims: set<char>, i: nat): (j: nat)
    requires i <= |s|
    ensures i <= j <= |s|
    ensures AtEnd(s, j) || s[j] in delims
    decreases |s| - i
  {
    if !AtEnd(s, i) && s[i] !in delims then TokenEnd(s, delims, i + 1) else i
  }

  datatype Span = Span(start: nat, end: nat)

  /** Everything SkipDelims passes over is a delimiter, not the terminator. */
  lemma {:induction false} SkipDelimsSkips(s: seq<char>, delims: set<char>, i: nat)
    requires i <= |s|
    ensures forall k :: i <= k < SkipDelims(s, delims, i) ==> s[k] != '\0' && s[k] in delims
    decreases |s| - i
  {
    if !AtEnd(s, i) && s[i] in delims {
      SkipDelimsSkips(s, delims, i + 1);
    }
  }

  /** Everything TokenEnd passes over is neither a delimiter nor the terminator. */
  lemma {:induction false} TokenEndScans(s: seq<char>, delims: set<char>, i: nat)
    requires i <= |s|
    ensures forall k :: i <= k < TokenEnd(s, delims, i) ==> s[k] != '\0' && s[k] !in delims
    decreases |s| - i
  {
    if !AtEnd(s, i) && s[i] !in delims {
      TokenEndScans(s, delims, i + 1);
    }
  }

  /** The token strtok_r finds when it starts scanning at `i`, if any. */
  function NextToken(s: seq<char>, delims: set<char>, i: nat): (t: Option<Span>)
    requires i <= |s|
    ensures t.Some? ==> i <= t.value.start < t.value.end <= |s|
    ensures t.Some? ==> AtEnd(s, t.value.end) || s[t.value.end] in delims
  {
    var j := SkipDelims(s, delims, i);
    if AtEnd(s, j) then None
    else
      var e := TokenEnd(s, delims, j);
      Some(Span(j, e))
  }

  /** Where the next call resumes: just after the NUL written over the delimiter,
      or at the end of the string. */
  function Resume(s: seq<char>, t: Span): nat {
    if AtEnd(s, t.end) then t.end else t.end + 1
  }

  /** The successive tokens the calls starting at `i` return. */
  function Tokens(s: seq<char>, delims: set<char>, i: nat): (ts: seq<seq<char>>)
    requires i <= |s|
    decreases |s| - i
  {
    match NextToken(s, delims, i)
    case None => []
    case Some(t) =>
      assert Resume(s, t) <= |s| && Resume(s, t) > i;
      [s[t.start..t.end]] + Tokens(s, delims, Resume(s, t))
  }

  /** The token found is non-empty and holds no delimiter and no NUL. */
  lemma NextTokenIsToken(s: seq<char>, delims: set<char>, i: nat)
    requires i <= |s| && NextToken(s, delims, i).Some?
    ensures var t := NextToken(s, delims, i).value;
      IsToken(s[t.start..t.end], delims)
  {
    var t := NextToken(s, delims, i).value;
    TokenEndScans(s, delims, t.start);
    assert forall k :: 0 <= k < t.end - t.start ==> s[t.start..t.end][k] == s[t.start + k];
  }

  /** Every token in the list is non-empty and holds no delimiter and no NUL. */
  lemma {:induction false} TokensAreTokens(s: seq<char>, delims: set<char>, i: nat)
    requires i <= |s|
    ensures forall k :: 0 <= k < |Tokens(s, delims, i)| ==> IsToken(Tokens(s, delims, i)[k], delims)
    decreases |s| - i
  {
    match NextToken(s, delims, i)
    case None =>
    case Some(t) =>
      NextTokenIsToken(s, delims, i);
      TokensAreTokens(s, delims, Resume(s, t));
      var rest := Tokens(s, delims, Resume(s, t));
      assert Tokens(s, delims, i) == [s[t.start..t.end]] + rest;
  }

  /** One call of strtok_r(p, delims, &save) on the string `s`, scanning from `from`
      (the first call passes the string, later calls resume from `save`): the token it
      returns, the new `save`, and the string after it wrote a NUL over the delimiter
      that ends the token. */
  function StrtokCall(s: seq<char>, delims: set<char>, from: nat): (r: (Option<Span>, nat, seq<char>))
    requires from <= |s|
  {
    match NextToken(s, delims, from)
    case None => (None, SkipDelims(s, delims, from), s)
    case Some(t) => (Some(t), Resume(s, t), if AtEnd(s, t.end) then s else s[t.end := '\0'])
  }

  /** strtok_r on a character buffer, which it updates in place. */
  method StrtokR(buf: array<char>, delims: set<char>, from: nat) returns (t: Option<Span>, save: nat)
    requires from <= buf.Length
    modifies buf
    ensures (t, save, buf[..]) == StrtokCall(old(buf[..]), delims, from)
  {
    ghost var s := buf[..];
    var i := from;
    while i < buf.Length && buf[i] != '\0' && buf[i] in delims
      invariant from <= i <= buf.Length
      invariant SkipDelims(s, delims, from) == SkipDelims(s, delims, i)
      decreases buf.Length - i
    {
      i := i + 1;
    }
    if i == buf.Length || buf[i] == '\0' {
      return None, i;
    }
    var e := i;
    while e < buf.Length && buf[e] != '\0' && buf[e] !in delims
      invariant i <= e <= buf.Length
      invariant TokenEnd(s, delims, i) == TokenEnd(s, delims, e)
      decreases buf.Length - e
    {
      e := e + 1;
    }
    t := Some(Span(i, e));
    if e == buf.Length || buf[e] == '\0' {
      save := e;
    } else {
      buf[e] := '\0';
      save := e + 1;
    }
  }

  // ------------------------------------------------------------------ lemmas

  /** What strtok_r does from `i` depends only on the characters from `i` on. */
  lemma {:induction false} SkipDelimsAgree(s: seq<char>, u: seq<char>, delims: set<char>, i: nat)
    requires |s| == |u| && i <= |s|
    requires forall k :: i <= k < |s| ==> s[k] == u[k]
    ensures SkipDelims(s, delims, i) == SkipDelims(u, delims, i)
    ensures TokenEnd(s, delims, i) == TokenEnd(u, delims, i)
    decreases |s| - i
  {
    if i < |s| {
      SkipDelimsAgree(s, u, delims, i + 1);
    }
  }

  lemma NextTokenAgree(s: seq<char>, u: seq<char>, delims: set<char>, i: nat)
    requires |s| == |u| && i <= |s|
    requires forall k :: i <= k < |s| ==> s[k] == u[k]
    ensures NextToken(s, delims, i) == NextToken(u, delims, i)
    ensures NextToken(s, delims, i).Some? ==> Resume(s, NextToken(s, delims, i).value) == Resume(u, NextToken(u, delims, i).value)
  {
    SkipDelimsAgree(s, u, delims, i);
    var j := SkipDelims(s, delims, i);
    SkipDelimsAgree(s, u, delims, j);
  }

  /** Scanning past a prefix: positions in `b` are positions in `a + b` shifted by `|a|`. */
  lemma {:induction false} ScanShift(a: seq<char>, b: seq<char>, delims: set<char>, i: nat)
    requires i <= |b|
    ensures SkipDelims(a + b, delims, |a| + i) == |a| + SkipDelims(b, delims, i)
    ensures TokenEnd(a + b, delims, |a| + i) == |a| + TokenEnd(b, delims, i)
    decreases |b| - i
  {
    assert forall k :: 0 <= k < |b| ==> (a + b)[|a| + k] == b[k];
    if i < |b| {
      ScanShift(a, b, delims, i + 1);
    }
  }

  lemma NextTokenShift(a: seq<char>, b: seq<char>, delims: set<char>, i: nat)
    requires i <= |b|
    ensures NextToken(b, delims, i).None? ==> NextToken(a + b, delims, |a| + i).None?
    ensures NextToken(b, delims, i).Some? ==>
      var t := NextToken(b, delims, i).value;
      NextToken(a + b, delims, |a| + i) == Some(Span(|a| + t.start, |a| + t.end))
  {
    ScanShift(a, b, delims, i);
    var j := SkipDelims(b, delims, i);
    assert j < |b| ==> (a + b)[|a| + j] == b[j];
    if !AtEnd(b, j) {
      ScanShift(a, b, delims, j);
    }
  }

  /** A span of `b` read inside `a + b`: the same text, and the next call resumes at
      the shifted position. */
  lemma SpanShift(a: seq<char>, b: seq<char>, t: Span)
    requires t.start <= t.end <= |b|
    ensures (a + b)[|a| + t.start..|a| + t.end] == b[t.start..t.end]
    ensures Resume(a + b, Span(|a| + t.start, |a| + t.end)) == |a| + Resume(b, t)
  {
    assert t.end < |b| ==> (a + b)[|a| + t.end] == b[t.end];
  }

  lemma {:induction false} TokensShift(a: seq<char>, b: seq<char>, delims: set<char>, i: nat)
    requires i <= |b|
    ensures Tokens(a + b, delims, |a| + i) == Tokens(b, delims, i)
    decreases |b| - i
  {
    NextTokenShift(a, b, delims, i);
    match NextToken(b, delims, i)
    case None =>
    case Some(t) =>
      SpanShift(a, b, t);
      TokensShift(a, b, delims, Resume(b, t));
      ShiftStep(a + b, b, delims, |a|, i, t);
  }

  /** The list of tokens from `i` is the next token followed by the list after it. */
  lemma TokensCons(s: seq<char>, delims: set<char>, i: nat)
    requires i <= |s| && NextToken(s, delims, i).Some?
    ensures var t := NextToken(s, delims, i).value;
      Tokens(s, delims, i) == [s[t.start..t.end]] + Tokens(s, delims, Resume(s, t))
  {
  }

  /** One step of TokensShift, with `s` holding `b` at offset `off`: when the next
      token and the rest of the list agree up to the shift, so do the lists. */
  lemma ShiftStep(s: seq<char>, b: seq<char>, delims: set<char>, off: nat, i: nat, t: Span)
    requires i <= |b| && off + |b| == |s|
    requires NextToken(b, delims, i) == Some(t)
    requires NextToken(s, delims, off + i) == Some(Span(off + t.start, off + t.end))
    requires s[off + t.start..off + t.end] == b[t.start..t.end]
    requires Resume(s, Span(off + t.start, off + t.end)) == off + Resume(b, t)
    requires Tokens(s, delims, off + Resume(b, t)) == Tokens(b, delims, Resume(b, t))
    ensures Tokens(s, delims, off + i) == Tokens(b, delims, i)
  {
    TokensCons(s, delims, off + i);
    TokensCons(b, delims, i);
  }

  /** Tokens are read the same from any two positions between which only delimiters lie. */
  lemma TokensSameStart(s: seq<char>, delims: set<char>, i: nat, j: nat)
    requires i <= |s| && j <= |s|
    requires SkipDelims(s, delims, i) == SkipDelims(s, delims, j)
    ensures Tokens(s, delims, i) == Tokens(s, delims, j)
  {
  }

  /** Scanning inside a NUL-free prefix `a`: either the scan stops inside `a`, or
      it reaches the end of `a` and goes on from there. */
  lemma {:induction false} ScanPrefix(a: seq<char>, b: seq<char>, delims: set<char>, i: nat)
    requires i <= |a| && '\0' !in a
    ensures SkipDelims(a + b, delims, i) ==
            if SkipDelims(a, delims, i) < |a| then SkipDelims(a, delims, i) else SkipDelims(a + b, delims, |a|)
    ensures TokenEnd(a + b, delims, i) ==
            if TokenEnd(a, delims, i) < |a| then TokenEnd(a, delims, i) else TokenEnd(a + b, delims, |a|)
    decreases |a| - i
  {
    if i < |a| {
      assert (a + b)[i] == a[i];
      ScanPrefix(a, b, delims, i + 1);
    }
  }

  /** strtok_r started inside a NUL-free prefix `a` finds the token `a` has there,
      cut at the end of `a` only if `a + b` has no more of it. */
  lemma NextTokenPrefix(a: seq<char>, b: seq<char>, delims: set<char>, i: nat)
    requires i <= |a| && '\0' !in a
    ensures NextToken(a, delims, i).None? ==>
      SkipDelims(a + b, delims, i) == SkipDelims(a + b, delims, |a|)
    ensures NextToken(a, delims, i).Some? ==>
      var t := NextToken(a, delims, i).value;
      && NextToken(a + b, delims, i).Some?
      && NextToken(a + b, delims, i).value.start == t.start
      && (t.end < |a| ==> NextToken(a + b, delims, i) == Some(t) && Resume(a + b, t) == Resume(a, t) == t.end + 1)
      && (t.end == |a| ==> NextToken(a + b, delims, i) == Some(Span(t.start, TokenEnd(a + b, delims, |a|))))
      && (a + b)[t.start..t.end] == a[t.start..t.end]
  {
    ScanPrefix(a, b, delims, i);
    var j := SkipDelims(a, delims, i);
    if j < |a| {
      assert (a + b)[j] == a[j];
      ScanPrefix(a, b, delims, j);
      var e := TokenEnd(a, delims, j);
      assert (a + b)[j..e] == a[j..e];
      assert e < |a| ==> (a + b)[e] == a[e];
    }
  }

  /** A delimiter splits the token list: the tokens of `a + [c] + b` are those of
      `a` followed by those of `b`. */
  lemma TokensSplit(a: seq<char>, c: char, b: seq<char>, delims: set<char>)
    requires '\0' !in a
    requires c in delims && c != '\0'
    ensures Tokens(a + [c] + b, delims, 0) == Tokens(a, delims, 0) + Tokens(b, delims, 0)
  {
    assert a + [c] + b == a + ([c] + b);
    SplitAt(a, [c] + b, delims, 0);
    TokensShift([c], b, delims, 0);
  }

  /** `rest` starts with a delimiter: reading `a + rest` from `i` gives the tokens of
      `a` from `i`, then those of `rest` after its first character. */
  lemma {:induction false} SplitAt(a: seq<char>, rest: seq<char>, delims: set<char>, i: nat)
    requires i <= |a| && '\0' !in a
    requires rest != [] && rest[0] in delims && rest[0] != '\0'
    ensures Tokens(a + rest, delims, i) == Tokens(a, delims, i) + Tokens(rest, delims, 1)
    decreases |a| - i, 1
  {
    var nt := NextToken(a, delims, i);
    if nt.None? {
      SplitNoToken(a, rest, delims, i);
    } else if nt.value.end < |a| {
      SplitInner(a, rest, delims, i);
    } else {
      SplitLast(a, rest, delims, i);
    }
  }

  /** At the delimiter, `a + rest` reads on as `rest` does after its first character. */
  lemma SplitAfterDelimiter(a: seq<char>, rest: seq<char>, delims: set<char>)
    requires rest != [] && rest[0] in delims && rest[0] != '\0'
    ensures Tokens(a + rest, delims, |a| + 1) == Tokens(rest, delims, 1)
    ensures SkipDelims(a + rest, delims, |a|) == SkipDelims(a + rest, delims, |a| + 1)
    ensures TokenEnd(a + rest, delims, |a|) == |a|
    ensures !AtEnd(a + rest, |a|)
  {
    assert (a + rest)[|a|] == rest[0];
    DelimiterAt(a + rest, delims, |a|);
    TokensShift(a, rest, delims, 1);
  }

  /** At a delimiter, scanning for a token's start moves past it, and a token
      ends there. */
  lemma DelimiterAt(s: seq<char>, delims: set<char>, k: nat)
    requires k < |s| && s[k] in delims && s[k] != '\0'
    ensures SkipDelims(s, delims, k) == SkipDelims(s, delims, k + 1)
    ensures TokenEnd(s, delims, k) == k
    ensures !AtEnd(s, k)
  {
  }

  lemma SplitNoToken(a: seq<char>, rest: seq<char>, delims: set<char>, i: nat)
    requires i <= |a| && '\0' !in a
    requires rest != [] && rest[0] in delims && rest[0] != '\0'
    requires NextToken(a, delims, i).None?
    ensures Tokens(a + rest, delims, i) == Tokens(a, delims, i) + Tokens(rest, delims, 1)
  {
    NextTokenPrefix(a, rest, delims, i);
    SplitAfterDelimiter(a, rest, delims);
    TokensSameStart(a + rest, delims, i, |a| + 1);
  }

  lemma {:induction false} SplitInner(a: seq<char>, rest: seq<char>, delims: set<char>, i: nat)
    requires i <= |a| && '\0' !in a
    requires rest != [] && rest[0] in delims && rest[0] != '\0'
    requires NextToken(a, delims, i).Some? && NextToken(a, delims, i).value.end < |a|
    ensures Tokens(a + rest, delims, i) == Tokens(a, delims, i) + Tokens(rest, delims, 1)
    decreases |a| - i, 0
  {
    var t := NextToken(a, delims, i).value;
    PrefixTokenStep(a, rest, delims, i);
    SplitAt(a, rest, delims, t.end + 1);
    ConcatAssoc([a[t.start..t.end]], Tokens(a, delims, t.end + 1), Tokens(rest, delims, 1));
  }

  lemma ConcatAssoc<T>(x: seq<T>, y: seq<T>, z: seq<T>)
    ensures x + (y + z) == (x + y) + z
  {
  }

  /** A token that ends inside the NUL-free prefix `a` is read the same in `a + b`,
      and both resume just after it. */
  lemma PrefixTokenStep(a: seq<char>, b: seq<char>, delims: set<char>, i: nat)
    requires i <= |a| && '\0' !in a
    requires NextToken(a, delims, i).Some? && NextToken(a, delims, i).value.end < |a|
    ensures var t := NextToken(a, delims, i).value;
      && Tokens(a + b, delims, i) == [a[t.start..t.end]] + Tokens(a + b, delims, t.end + 1)
      && Tokens(a, delims, i) == [a[t.start..t.end]] + Tokens(a, delims, t.end + 1)
  {
    NextTokenPrefix(a, b, delims, i);
  }

  lemma SplitLast(a: seq<char>, rest: seq<char>, delims: set<char>, i: nat)
    requires i <= |a| && '\0' !in a
    requires rest != [] && rest[0] in delims && rest[0] != '\0'
    requires NextToken(a, delims, i).Some? && NextToken(a, delims, i).value.end == |a|
    ensures Tokens(a + rest, delims, i) == Tokens(a, delims, i) + Tokens(rest, delims, 1)
  {
    LastTokenBeforeDelimiter(a, rest, delims, i);
    LastTokenAlone(a, delims, i);
    SplitAfterDelimiter(a, rest, delims);
  }

  /** The token that runs to the end of `a` is also the one `a + rest` finds, where
      the delimiter starting `rest` ends it. */
  lemma LastTokenBeforeDelimiter(a: seq<char>, rest: seq<char>, delims: set<char>, i: nat)
    requires i <= |a| && '\0' !in a
    requires rest != [] && rest[0] in delims && rest[0] != '\0'
    requires NextToken(a, delims, i).Some? && NextToken(a, delims, i).value.end == |a|
    ensures Tokens(a + rest, delims, i) ==
      [a[NextToken(a, delims, i).value.start..]] + Tokens(a + rest, delims, |a| + 1)
  {
    var t := NextToken(a, delims, i).value;
    var s := a + rest;
    NextTokenPrefix(a, rest, delims, i);
    assert s[|a|] == rest[0];
    var u := Span(t.start, |a|);
    assert NextToken(s, delims, i) == Some(u);
    assert !AtEnd(s, |a|) && Resume(s, u) == |a| + 1;
    assert s[u.start..u.end] == a[t.start..];
  }

  /** The token that runs to the end of `a` is the last one `a` has. */
  lemma LastTokenAlone(a: seq<char>, delims: set<char>, i: nat)
    requires i <= |a|
    requires NextToken(a, delims, i).Some? && NextToken(a, delims, i).value.end == |a|
    ensures Tokens(a, delims, i) == [a[NextToken(a, delims, i).value.start..]]
  {
    var t := NextToken(a, delims, i).value;
    assert AtEnd(a, |a|) && Resume(a, t) == |a|;
    assert Tokens(a, delims, |a|) == [];
    assert a[t.start..t.end] == a[t.start..];
  }

  /** A NUL ends the token list: whatever follows it is never read. */
  lemma {:induction false} TokensStopAtNul(a: seq<char>, b: seq<char>, delims: set<char>, i: nat)
    requires i <= |a| && '\0' !in a
    requires b == [] || b[0] == '\0'
    ensures Tokens(a + b, delims, i) == Tokens(a, delims, i)
    decreases |a| - i, 1
  {
    var nt := NextToken(a, delims, i);
    if nt.None? {
      StopAtNulNoToken(a, b, delims, i);
    } else if nt.value.end < |a| {
      StopAtNulInner(a, b, delims, i);
    } else {
      StopAtNulLast(a, b, delims, i);
    }
  }

  lemma StopAtNulNoToken(a: seq<char>, b: seq<char>, delims: set<char>, i: nat)
    requires i <= |a| && '\0' !in a
    requires b == [] || b[0] == '\0'
    requires NextToken(a, delims, i).None?
    ensures Tokens(a + b, delims, i) == Tokens(a, delims, i)
  {
    NextTokenPrefix(a, b, delims, i);
    assert AtEnd(a + b, |a|);
  }

  lemma {:induction false} StopAtNulInner(a: seq<char>, b: seq<char>, delims: set<char>, i: nat)
    requires i <= |a| && '\0' !in a
    requires b == [] || b[0] == '\0'
    requires NextToken(a, delims, i).Some? && NextToken(a, delims, i).value.end < |a|
    ensures Tokens(a + b, delims, i) == Tokens(a, delims, i)
    decreases |a| - i, 0
  {
    var t := NextToken(a, delims, i).value;
    PrefixTokenStep(a, b, delims, i);
    TokensStopAtNul(a, b, delims, t.end + 1);
  }

  lemma StopAtNulLast(a: seq<char>, b: seq<char>, delims: set<char>, i: nat)
    requires i <= |a| && '\0' !in a
    requires b == [] || b[0] == '\0'
    requires NextToken(a, delims, i).Some? && NextToken(a, delims, i).value.end == |a|
    ensures Tokens(a + b, delims, i) == Tokens(a, delims, i)
  {
    NextTokenPrefix(a, b, delims, i);
    assert AtEnd(a + b, |a|);
    assert TokenEnd(a + b, delims, |a|) == |a|;
    assert Tokens(a, delims, |a|) == [];
    assert Tokens(a + b, delims, |a|) == [];
  }

  /** A token on its own reads back as the single token it is. */
  lemma SingleToken(w: seq<char>, delims: set<char>)
    requires IsToken(w, delims)
    ensures Tokens(w, delims, 0) == [w]
  {
    TokensStopAtNul(w, [], delims, 0);
    assert forall k :: 0 <= k < |w| ==> w[k] in w;
    ScanPrefix(w, [], delims, 0);
    assert w + [] == w;
    ScanEndsAt(w, delims, 0);
  }

  lemma {:induction false} ScanEndsAt(w: seq<char>, delims: set<char>, i: nat)
    requires IsToken(w, delims) && i <= |w|
    ensures TokenEnd(w, delims, i) == |w|
    ensures i < |w| ==> SkipDelims(w, delims, i) == i
    decreases |w| - i
  {
    if i < |w| {
      assert w[i] in w;
      ScanEndsAt(w, delims, i + 1);
    }
  }

  /** Delimiters before the first token are skipped. */
  lemma LeadingDelimiterSkipped(c: char, s: seq<char>, delims: set<char>)
    requires c in delims && c != '\0'
    ensures Tokens([c] + s, delims, 0) == Tokens(s, delims, 0)
  {
    TokensSplit([], c, s, delims);
    assert [] + [c] + s == [c] + s;
  }

  /** A run of two delimiters separates like one. */
  lemma DelimiterRunCollapses(a: seq<char>, c: char, d: char, b: seq<char>, delims: set<char>)
    requires '\0' !in a
    requires c in delims && c != '\0' && d in delims && d != '\0'
    ensures Tokens(a + [c, d] + b, delims, 0) == Tokens(a + [c] + b, delims, 0)
  {
    assert a + [c, d] + b == a + [c] + ([d] + b);
    TokensSplit(a, c, [d] + b, delims);
    TokensSplit(a, c, b, delims);
    LeadingDelimiterSkipped(d, b, delims);
  }
}
