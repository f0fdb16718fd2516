/** Tokenizer of demangled template-instantiation names, stated over immutable
    text.  A C string seen from a cursor is a `string`; the end of the sequence
    stands for its terminating NUL.  Every scan returns what it matched (None
    for the source's null pointer, which is not the same as an empty match) and
    the text left at the cursor afterwards. */
module Tokens {

  datatype Option<+T> = None | Some(value: T)

  /** Outcome of one scan: the matched text and the text at the cursor after it. */
  datatype Scan = Scan(arg: Option<string>, rest: string)

  /** A matched text converted to a name: a null match becomes the empty name. */
  function Text(o: Option<string>): string
  {
    if o.Some? then o.value else []
  }

  // ---------------------------------------------------------------------------
  // Angle-bracket nesting

  function Delta(c: char): int
  {
    if c == '<' then 1 else if c == '>' then -1 else 0
  }

  /** Number of '<' minus number of '>' in u. */
  function Nesting(u: string): int
  {
    if u == [] then 0 else Nesting(u[..|u| - 1]) + Delta(u[|u| - 1])
  }

  lemma NestingSnoc(t: string, i: nat)
    requires i < |t|
    ensures Nesting(t[..i + 1]) == Nesting(t[..i]) + Delta(t[i])
  {
    assert t[..i + 1][..i] == t[..i];
  }

  /** A text with no angle brackets has nesting 0, and so has each of its prefixes. */
  lemma {:induction false} NestingFlat(x: string)
    requires forall i :: 0 <= i < |x| ==> x[i] != '<' && x[i] != '>'
    ensures Nesting(x) == 0
    ensures forall j :: 0 <= j <= |x| ==> Nesting(x[..j]) == 0
  {
    if x != [] {
      NestingFlat(x[..|x| - 1]);
    }
    forall j | 0 <= j <= |x|
      ensures Nesting(x[..j]) == 0
    {
      if j < |x| {
        NestingFlat(x[..j]);
      } else {
        assert x[..j] == x;
      }
    }
  }

  // ---------------------------------------------------------------------------
  // matchAngleArgument

  /** Position j of t is where the argument scan stops: a '>' (or, when commas
      split, a ',') with no bracket left open before it. */
  predicate IsStop(t: string, j: nat, skipToEnd: bool)
  {
    j < |t| && Nesting(t[..j]) == 0 && (t[j] == '>' || (t[j] == ',' && !skipToEnd))
  }

  /** The text is one whole template argument: balanced and without a top-level
      delimiter. */
  predicate IsArgument(x: string, skipToEnd: bool)
  {
    Nesting(x) == 0 && forall j :: 0 <= j < |x| ==> !IsStop(x, j, skipToEnd)
  }

  /** Where the bracket-depth scan that begins at i with the given depth stops:
      the delimiter's index, or |t| when the text ends first. */
  function AngleStop(t: string, i: nat, skipToEnd: bool, depth: int): (k: nat)
    requires i <= |t|
    ensures i <= k <= |t|
    ensures k < |t| ==> t[k] == '>' || (t[k] == ',' && !skipToEnd)
    decreases |t| - i
  {
    if i == |t| then i
    else if t[i] == ',' && !skipToEnd && depth == 1 then i
    else if t[i] == '>' && depth == 1 then i
    else AngleStop(t, i + 1, skipToEnd, depth + Delta(t[i]))
  }

  /** matchAngleArgument on the text at the cursor, the scan starting at depth 1.
      On success the argument is the text before the delimiter and the cursor
      moves past the delimiter (and past one space after a comma); when the text
      ends first the result is null and the cursor is left at the end. */
  function AngleArg(t: string, skipToEnd: bool): (s: Scan)
    ensures s.arg.Some? ==> s.arg.value < t && |s.rest| < |t|
    ensures s.arg.None? ==> s.rest == []
  {
    var k := AngleStop(t, 0, skipToEnd, 1);
    if k == |t| then Scan(None, [])
    else Scan(Some(t[..k]), if t[k] == ',' && k + 1 < |t| && t[k + 1] == ' ' then t[k + 2..] else t[k + 1..])
  }

  /** The depth-tracking scan stops exactly at the first position that IsStop
      accepts (the depth it carries is always 1 + the nesting read so far). */
  lemma {:induction false} AngleStopIsFirstStop(t: string, i: nat, skipToEnd: bool)
    requires i <= |t|
    ensures var k := AngleStop(t, i, skipToEnd, 1 + Nesting(t[..i]));
      (k < |t| ==> IsStop(t, k, skipToEnd)) &&
      forall j :: i <= j < k ==> !IsStop(t, j, skipToEnd)
    decreases |t| - i
  {
    if i < |t| && !IsStop(t, i, skipToEnd) {
      NestingSnoc(t, i);
      AngleStopIsFirstStop(t, i + 1, skipToEnd);
    }
  }

  /** matchAngleArgument returns the text before the first top-level delimiter,
      and null exactly when there is no such delimiter. */
  lemma AngleArgIsFirstArgument(t: string, skipToEnd: bool)
    ensures var s := AngleArg(t, skipToEnd);
      (s.arg.None? <==> forall j :: 0 <= j < |t| ==> !IsStop(t, j, skipToEnd)) &&
      (s.arg.Some? ==> IsStop(t, |s.arg.value|, skipToEnd) && IsArgument(s.arg.value, skipToEnd))
  {
    assert t[..0] == [];
    AngleStopIsFirstStop(t, 0, skipToEnd);
    var k := AngleStop(t, 0, skipToEnd, 1);
    if k < |t| {
      var x := t[..k];
      forall j | 0 <= j < k
        ensures !IsStop(x, j, skipToEnd)
      {
        assert !IsStop(t, j, skipToEnd);
        assert x[..j] == t[..j] && x[j] == t[j];
      }
    }
  }

  /** Round trip: an argument followed by a delimiter is split off exactly, with
      the cursor after the delimiter (and after one space following a comma). */
  lemma AngleArgSplits(x: string, d: char, w: string, skipToEnd: bool)
    requires IsArgument(x, skipToEnd)
    requires d == '>' || (d == ',' && !skipToEnd)
    ensures AngleArg(x + [d] + w, skipToEnd)
         == Scan(Some(x), if d == ',' && w != [] && w[0] == ' ' then w[1..] else w)
  {
    var t := x + [d] + w;
    assert t[..0] == [];
    AngleStopIsFirstStop(t, 0, skipToEnd);
    var k := AngleStop(t, 0, skipToEnd, 1);
    assert t[..|x|] == x;
    assert IsStop(t, |x|, skipToEnd);
    if k < |x| {
      assert t[..k] == x[..k];
      assert IsStop(x, k, skipToEnd);
    }
    assert k == |x|;
    assert t[k + 1..] == w;
    if w != [] {
      assert t[k + 2..] == w[1..];
    }
  }

  /** A text without commas or angle brackets is an argument in either mode. */
  lemma FlatIsArgument(x: string, skipToEnd: bool)
    requires forall i :: 0 <= i < |x| ==> x[i] != '<' && x[i] != '>' && x[i] != ','
    ensures IsArgument(x, skipToEnd)
  {
    NestingFlat(x);
  }

  /** Splitting on commas never scans further than skipping to the closing '>'. */
  lemma SplitStopsNoLaterThanSkip(t: string)
    ensures AngleStop(t, 0, false, 1) <= AngleStop(t, 0, true, 1)
  {
    assert t[..0] == [];
    AngleStopIsFirstStop(t, 0, false);
    AngleStopIsFirstStop(t, 0, true);
    var k := AngleStop(t, 0, true, 1);
    if k < |t| {
      assert IsStop(t, k, false);
    }
  }

  // ---------------------------------------------------------------------------
  // matchName

  predicate IsNameChar(c: char)
  {
    ('a' <= c <= 'z') || ('A' <= c <= 'Z') || ('0' <= c <= '9') || c == ':' || c == '_'
  }

  /** Position j of t ends an identifier: outside any '<...>' group, a character
      that is neither a name character nor '<'. */
  predicate IsNameStop(t: string, j: nat)
  {
    j < |t| && Nesting(t[..j]) == 0 && !IsNameChar(t[j]) && t[j] != '<'
  }

  /** Where the identifier scan that begins at i with the given depth stops. */
  function NameStop(t: string, i: nat, depth: int): (k: nat)
    requires i <= |t|
    ensures i <= k <= |t|
    decreases |t| - i
  {
    if i == |t| then i
    else if IsNameChar(t[i]) then NameStop(t, i + 1, depth)
    else if t[i] == '<' then NameStop(t, i + 1, depth + 1)
    else if t[i] == '>' && depth > 0 then NameStop(t, i + 1, depth - 1)
    else if depth == 0 then i
    else NameStop(t, i + 1, depth)
  }

  /** matchName: succeeds when the character that stops the scan is the
      terminator (the end of the text counts as the NUL terminator); on success
      the cursor moves past it.  On failure the cursor stays where the scan
      stopped. */
  function NameArg(t: string, terminus: char): (s: Scan)
    ensures s.arg.Some? ==> s.arg.value <= t
    ensures |s.rest| <= |t|
  {
    var k := NameStop(t, 0, 0);
    if k == |t| then Scan(if terminus == '\0' then Some(t) else None, [])
    else if t[k] == terminus then Scan(Some(t[..k]), t[k + 1..])
    else Scan(None, t[k..])
  }

  lemma {:induction false} NameStopIsFirstStop(t: string, i: nat)
    requires i <= |t| && Nesting(t[..i]) >= 0
    ensures var k := NameStop(t, i, Nesting(t[..i]));
      (k < |t| ==> IsNameStop(t, k)) &&
      forall j :: i <= j < k ==> !IsNameStop(t, j)
    decreases |t| - i
  {
    if i < |t| && !IsNameStop(t, i) {
      NestingSnoc(t, i);
      NameStopIsFirstStop(t, i + 1);
    }
  }

  /** matchName with a terminator other than NUL succeeds exactly when the first
      character ending the identifier is the terminator; the name is the text
      before it. */
  lemma NameArgIsFirstName(t: string, terminus: char)
    requires terminus != '\0'
    ensures var s := NameArg(t, terminus);
      (s.arg.Some? ==> var k := |s.arg.value|;
         k < |t| && t[k] == terminus && IsNameStop(t, k) && s.rest == t[k + 1..] &&
         forall j :: 0 <= j < k ==> !IsNameStop(t, j)) &&
      (s.arg.None? ==> forall k :: 0 <= k < |t| && IsNameStop(t, k) && t[k] == terminus ==>
         exists j :: 0 <= j < k && IsNameStop(t, j))
  {
    assert t[..0] == [];
    NameStopIsFirstStop(t, 0);
  }

  /** On success matchName consumed the name and its terminator. */
  lemma NameArgParts(t: string, terminus: char)
    requires terminus != '\0'
    ensures var s := NameArg(t, terminus);
      s.arg.Some? ==> t == s.arg.value + [terminus] + s.rest
  {
    NameArgIsFirstName(t, terminus);
    var s := NameArg(t, terminus);
    if s.arg.Some? {
      var k := |s.arg.value|;
      assert t == t[..k] + [t[k]] + t[k + 1..];
    }
  }

  predicate IsIdentifier(x: string)
  {
    forall i :: 0 <= i < |x| ==> IsNameChar(x[i])
  }

  /** A name that matchName reads whole: its '<...>' groups are balanced and
      no character outside them ends the identifier, e.g. "S<T, U>". */
  predicate IsName(x: string)
  {
    Nesting(x) == 0 && forall j :: 0 <= j < |x| ==> !IsNameStop(x, j)
  }

  /** Characters without angle brackets leave the nesting as it was. */
  lemma {:induction false} NestingAppendFlat(n: string, y: string)
    requires forall i :: 0 <= i < |y| ==> y[i] != '<' && y[i] != '>'
    ensures Nesting(n + y) == Nesting(n)
    decreases |y|
  {
    if y != [] {
      var y' := y[..|y| - 1];
      assert (n + y)[..|n + y| - 1] == n + y';
      assert (n + y)[|n + y| - 1] == y[|y| - 1];
      NestingAppendFlat(n, y');
    } else {
      assert n + y == n;
    }
  }

  /** A name followed by plain identifier characters is still a name. */
  lemma NameThenIdentifier(n: string, x: string)
    requires IsName(n) && IsIdentifier(x)
    ensures IsName(n + x)
  {
    var t := n + x;
    forall j | 0 <= j < |t|
      ensures !IsNameStop(t, j)
    {
      if j < |n| {
        assert !IsNameStop(n, j);
        assert t[..j] == n[..j] && t[j] == n[j];
      } else {
        assert t[j] == x[j - |n|];
      }
    }
    NestingAppendFlat(n, x);
  }

  /** Every plain identifier is a name. */
  lemma IdentifierIsName(x: string)
    requires IsIdentifier(x)
    ensures IsName(x)
  {
    NameThenIdentifier([], x);
    assert [] + x == x;
  }

  /** A name with a template argument group. */
  lemma TemplateIsName()
    ensures IsName("S<T>")
  {
    var x := "S<T>";
    assert x[..0] == [] && x[..1] == "S" && x[..2] == "S<" && x[..3] == "S<T" && x[..4] == x;
    NestingSnoc(x, 0);
    NestingSnoc(x, 1);
    NestingSnoc(x, 2);
    NestingSnoc(x, 3);
  }

  /** Round trip: a name followed by its terminator is matched exactly, with
      the cursor after the terminator. */
  lemma NameArgSplits(n: string, terminus: char, w: string)
    requires IsName(n) && !IsNameChar(terminus) && terminus != '<' && terminus != '\0'
    ensures NameArg(n + [terminus] + w, terminus) == Scan(Some(n), w)
  {
    var t := n + [terminus] + w;
    assert t[..0] == [];
    NameStopIsFirstStop(t, 0);
    var k := NameStop(t, 0, 0);
    forall j | 0 <= j < |n|
      ensures !IsNameStop(t, j)
    {
      assert !IsNameStop(n, j);
      assert t[..j] == n[..j] && t[j] == n[j];
    }
    assert t[..|n|] == n;
    assert IsNameStop(t, |n|);
    assert k == |n|;
    assert t[k + 1..] == w;
  }

  // ---------------------------------------------------------------------------
  // expectEndsWith, std::atoi, expectAddress

  predicate EndsWith(f: string, suffix: string)
  {
    |suffix| <= |f| && f[|f| - |suffix|..] == suffix
  }

  predicate IsDigit(c: char) { '0' <= c <= '9' }

  predicate IsHexDigit(c: char)
  {
    IsDigit(c) || ('a' <= c <= 'f') || ('A' <= c <= 'F')
  }

  /** Length of the run of decimal digits that t starts with. */
  function DigitCount(t: string): (n: nat)
    ensures n <= |t|
    ensures forall i :: 0 <= i < n ==> IsDigit(t[i])
    ensures n < |t| ==> !IsDigit(t[n])
  {
    if t != [] && IsDigit(t[0]) then 1 + DigitCount(t[1..]) else 0
  }

  /** Length of the run of hexadecimal digits that t starts with. */
  function HexCount(t: string): (n: nat)
    ensures n <= |t|
    ensures forall i :: 0 <= i < n ==> IsHexDigit(t[i])
    ensures n < |t| ==> !IsHexDigit(t[n])
  {
    if t != [] && IsHexDigit(t[0]) then 1 + HexCount(t[1..]) else 0
  }

  /** Value of a run of decimal digits, most significant first. */
  function DecimalValue(d: string): nat
    requires forall i :: 0 <= i < |d| ==> IsDigit(d[i])
  {
    if d == [] then 0 else 10 * DecimalValue(d[..|d| - 1]) + DigitValue(d[|d| - 1])
  }

  function DigitValue(c: char): nat
    requires IsDigit(c)
  {
    c as int - '0' as int
  }

  /** std::atoi restricted to what it reads here: the leading decimal digits. */
  function LeadingNumber(t: string): nat
  {
    DecimalValue(t[..DigitCount(t)])
  }

  lemma LeadingNumberOfDigits(d: string, w: string)
    requires forall i :: 0 <= i < |d| ==> IsDigit(d[i])
    requires w == [] || !IsDigit(w[0])
    ensures LeadingNumber(d + w) == DecimalValue(d)
  {
    assert forall i :: 0 <= i < |d| ==> (d + w)[i] == d[i];
    if w != [] {
      assert (d + w)[|d|] == w[0];
    }
    assert DigitCount(d + w) == |d|;
    assert (d + w)[..|d|] == d;
  }

  /** Length of the address tag expectAddress skips: "0x" and the hexadecimal
      digits after it, or nothing. */
  function AddressLength(t: string): (n: nat)
    ensures n <= |t|
  {
    if "0x" <= t then 2 + HexCount(t[2..]) else 0
  }

  /** An address tag ending where a non-hexadecimal character follows is
      skipped whole. */
  lemma AddressLengthOfTag(h: string, w: string)
    requires forall i :: 0 <= i < |h| ==> IsHexDigit(h[i])
    requires w == [] || !IsHexDigit(w[0])
    ensures AddressLength("0x" + h + w) == 2 + |h|
  {
    var t := "0x" + h + w;
    assert "0x" <= t;
    assert t[2..] == h + w;
    assert forall i :: 0 <= i < |h| ==> (h + w)[i] == h[i];
    if w != [] {
      assert (h + w)[|h|] == w[0];
    }
    assert HexCount(h + w) == |h|;
  }

  // ---------------------------------------------------------------------------
  // Examples of the balanced-argument scan

  /** One step of the split scan over a character that does not stop it. */
  lemma SplitScanStep(t: string, i: nat, depth: int, c: char)
    requires i < |t| && t[i] == c
    requires !(c == ',' && depth == 1) && !(c == '>' && depth == 1)
    ensures AngleStop(t, i, false, depth) == AngleStop(t, i + 1, false, depth + Delta(c))
  {
  }

  /** The inner part of the example: from "<C,D>,E>" on, at depth 2, the scan
      reaches the comma before "F". */
  lemma SplitExampleInner(t: string)
    requires t == "A<B<C,D>,E>,F"
    ensures AngleStop(t, 3, false, 2) == 11
  {
    assert AngleStop(t, 11, false, 1) == 11;
    SplitScanStep(t, 10, 2, '>');
    SplitScanStep(t, 9, 2, 'E');
    SplitScanStep(t, 8, 2, ',');
    SplitScanStep(t, 7, 3, '>');
    SplitScanStep(t, 6, 3, 'D');
    SplitScanStep(t, 5, 3, ',');
    SplitScanStep(t, 4, 3, 'C');
    SplitScanStep(t, 3, 2, '<');
  }

  /** Splitting "A<B<C,D>,E>,F" yields "A<B<C,D>,E>" with the cursor at "F":
      no comma inside the brackets splits, at any depth. */
  lemma SplitExample(t: string)
    requires t == "A<B<C,D>,E>,F"
    ensures AngleArg(t, false) == Scan(Some("A<B<C,D>,E>"), "F")
  {
    SplitExampleInner(t);
    SplitScanStep(t, 2, 2, 'B');
    SplitScanStep(t, 1, 1, '<');
    SplitScanStep(t, 0, 1, 'A');
    assert t[..11] == "A<B<C,D>,E>" && t[12..] == "F";
  }

  /** Skipping to the end over "A<B,C>,X>" consumes "A<B,C>,X": no comma
      stops the scan, only the '>' that closes the enclosing list. */
  lemma SkipExample()
    ensures AngleArg("A<B,C>,X>", true) == Scan(Some("A<B,C>,X"), "")
  {
    var t := "A<B,C>,X>";
    assert AngleStop(t, 8, true, 1) == 8;
    assert AngleStop(t, 7, true, 1) == 8;
    assert AngleStop(t, 6, true, 1) == 8;
    assert AngleStop(t, 5, true, 2) == 8;
    assert AngleStop(t, 4, true, 2) == 8;
    assert AngleStop(t, 3, true, 2) == 8;
    assert AngleStop(t, 2, true, 2) == 8;
    assert AngleStop(t, 1, true, 1) == 8;
    assert AngleStop(t, 0, true, 1) == 8;
    assert t[..8] == "A<B,C>,X";
  }
}
