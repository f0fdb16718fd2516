/** The C-string primitives of ScParser (src/ScParser.cpp) over the character
    buffer they cut in place.  A cursor is an index into the buffer, a null
    pointer is None, and a scan that succeeds ends its match by overwriting the
    delimiter with NUL.  Each primitive is proved to compute the text-level
    function of the Tokens module on the string at its cursor. */
module Buffer {
  import opened Tokens

  /** A buffer whose last character is NUL, so that every cursor designates a
      terminated string. */
  predicate Terminated(s: seq<char>)
  {
    |s| > 0 && s[|s| - 1] == '\0'
  }

  /** The index of the NUL that ends the string at p. */
  function End(s: seq<char>, p: nat): (e: nat)
    requires Terminated(s) && p < |s|
    ensures p <= e < |s| && s[e] == '\0'
    ensures forall j :: p <= j < e ==> s[j] != '\0'
    decreases |s| - p
  {
    if s[p] == '\0' then p else End(s, p + 1)
  }

  /** The string at p: its characters up to the NUL. */
  function CStr(s: seq<char>, p: nat): string
    requires Terminated(s) && p < |s|
  {
    s[p..End(s, p)]
  }

  /** The name built from a possibly null pointer; a null pointer gives the
      empty name. */
  function StringAt(s: seq<char>, p: Option<nat>): string
    requires Terminated(s) && (p.Some? ==> p.value < |s|)
  {
    if p.None? then [] else CStr(s, p.value)
  }

  /** A literal the parser compares against, free of NUL. */
  predicate NoNul(lit: string)
  {
    forall i :: 0 <= i < |lit| ==> lit[i] != '\0'
  }

  /** All the differences between two buffers lie in [lo, hi). */
  predicate WritesWithin(s: seq<char>, s': seq<char>, lo: nat, hi: nat)
  {
    |s'| == |s| && forall j :: 0 <= j < |s| && (j < lo || hi <= j) ==> s'[j] == s[j]
  }

  // ---------------------------------------------------------------------------
  // Facts about strings in a buffer

  lemma EndUnique(s: seq<char>, p: nat, e: nat)
    requires Terminated(s) && p <= e < |s| && s[e] == '\0'
    requires forall j :: p <= j < e ==> s[j] != '\0'
    ensures End(s, p) == e
  {
  }

  /** A cursor inside a string designates the rest of that string. */
  lemma CStrTail(s: seq<char>, p: nat, q: nat)
    requires Terminated(s) && p < |s| && p <= q <= End(s, p)
    ensures End(s, q) == End(s, p) && CStr(s, q) == CStr(s, p)[q - p..]
  {
    EndUnique(s, q, End(s, p));
  }

  /** Writing NUL at offset k of a string ends it there; the text after the
      NUL is the rest of the old string. */
  lemma CStrCut(s: seq<char>, p: nat, k: nat)
    requires Terminated(s) && p < |s| && k < |CStr(s, p)|
    ensures Terminated(s[p + k := '\0'])
    ensures End(s[p + k := '\0'], p) == p + k && CStr(s[p + k := '\0'], p) == CStr(s, p)[..k]
    ensures End(s[p + k := '\0'], p + k + 1) == End(s, p)
    ensures CStr(s[p + k := '\0'], p + k + 1) == CStr(s, p)[k + 1..]
  {
    var s' := s[p + k := '\0'];
    EndUnique(s', p, p + k);
    EndUnique(s', p + k + 1, End(s, p));
    var e := End(s, p);
    assert CStr(s', p) == s[p..p + k];
    assert s[p..e][..k] == s[p..p + k];
    assert CStr(s', p + k + 1) == s[p + k + 1..e];
    assert s[p..e][k + 1..] == s[p + k + 1..e];
  }

  /** A string is unchanged by writes outside it and its terminator. */
  lemma CStrFrame(s: seq<char>, s': seq<char>, p: nat)
    requires Terminated(s) && Terminated(s') && |s'| == |s| && p < |s|
    requires forall j :: p <= j <= End(s, p) ==> s'[j] == s[j]
    ensures End(s', p) == End(s, p) && CStr(s', p) == CStr(s, p)
  {
    EndUnique(s', p, End(s, p));
  }

  lemma WritesWithinTrans(s: seq<char>, s': seq<char>, s'': seq<char>, lo: nat, hi: nat, lo': nat, hi': nat)
    requires WritesWithin(s, s', lo, hi) && WritesWithin(s', s'', lo', hi')
    requires lo <= lo' && hi' <= hi
    ensures WritesWithin(s, s'', lo, hi)
  {
  }

  // ---------------------------------------------------------------------------
  // Prefix and suffix tests

  /** expectStartsWith (through expectString): when the string at the cursor
      starts with the literal, the cursor moves past it; otherwise it stays. */
  method ExpectStartsWith(a: array<char>, data: nat, lit: string) returns (ok: bool, cursor: nat)
    requires Terminated(a[..]) && data < a.Length
    requires NoNul(lit)
    ensures ok == (lit <= CStr(a[..], data))
    ensures cursor == if ok then data + |lit| else data
    ensures cursor <= End(a[..], data) && CStr(a[..], cursor) == CStr(a[..], data)[cursor - data..]
  {
    var i := 0;
    while i < |lit| && a[data + i] == lit[i]
      invariant i <= |lit| && data + i <= End(a[..], data)
      invariant lit[..i] == a[data..data + i]
    {
      i := i + 1;
    }
    ok := i == |lit|;
    cursor := if ok then data + |lit| else data;
    CStrTail(a[..], data, cursor);
  }

  /** eqString: the string at p equals the literal. */
  method EqString(a: array<char>, p: nat, lit: string) returns (eq: bool)
    requires Terminated(a[..]) && p < a.Length
    requires NoNul(lit)
    ensures eq == (CStr(a[..], p) == lit)
  {
    var ok, c := ExpectStartsWith(a, p, lit);
    eq := ok && a[c] == '\0';
    if ok {
      assert CStr(a[..], c) == [] <==> a[c] == '\0';
      assert CStr(a[..], p) == lit + CStr(a[..], c);
    }
  }

  /** expectEndsWith: when the text in [start, end) is at least as long as the
      suffix and the string at end - |suffix| is the suffix, the suffix is cut
      off by writing NUL where it starts. */
  method ExpectEndsWith(a: array<char>, start: nat, end: nat, suffix: string) returns (ok: bool)
    requires Terminated(a[..]) && start <= end < a.Length
    requires NoNul(suffix)
    modifies a
    ensures ok == (|suffix| <= end - start && CStr(old(a[..]), end - |suffix|) == suffix)
    ensures a[..] == if ok then old(a[..])[end - |suffix| := '\0'] else old(a[..])
  {
    ok := false;
    if end - start >= |suffix| {
      var eq := EqString(a, end - |suffix|, suffix);
      if eq {
        a[end - |suffix|] := '\0';
        ok := true;
      }
    }
  }

  // ---------------------------------------------------------------------------
  // Numbers and address tags

  /** std::atoi on the region number: the value of the leading digits. */
  method Atoi(a: array<char>, p: nat) returns (n: int)
    requires Terminated(a[..]) && p < a.Length
    ensures n == LeadingNumber(CStr(a[..], p))
  {
    ghost var t := CStr(a[..], p);
    var i := 0;
    n := 0;
    while IsDigit(a[p + i])
      invariant p + i <= End(a[..], p) && i <= DigitCount(t)
      invariant n == DecimalValue(t[..i])
      decreases End(a[..], p) - (p + i)
    {
      assert t[..i + 1][..i] == t[..i];
      n := 10 * n + DigitValue(a[p + i]);
      i := i + 1;
    }
  }

  /** The run of hexadecimal digits at p. */
  method SkipHexDigits(a: array<char>, p: nat) returns (cursor: nat)
    requires Terminated(a[..]) && p < a.Length
    ensures p <= cursor <= End(a[..], p) && cursor - p == HexCount(CStr(a[..], p))
  {
    ghost var t := CStr(a[..], p);
    cursor := p;
    while IsHexDigit(a[cursor])
      invariant p <= cursor <= End(a[..], p) && cursor - p <= HexCount(t)
      decreases End(a[..], p) - cursor
    {
      cursor := cursor + 1;
    }
  }

  /** The stand-in for expectAddress: skips "0x" and the hexadecimal digits
      after it. */
  method ExpectAddress(a: array<char>, data: nat) returns (cursor: nat)
    requires Terminated(a[..]) && data < a.Length
    ensures cursor == data + AddressLength(CStr(a[..], data))
    ensures cursor <= End(a[..], data) && CStr(a[..], cursor) == CStr(a[..], data)[cursor - data..]
  {
    var ok;
    ok, cursor := ExpectStartsWith(a, data, "0x");
    if ok {
      cursor := SkipHexDigits(a, cursor);
    }
    CStrTail(a[..], data, cursor);
  }

  // ---------------------------------------------------------------------------
  // Scans

  /** The buffer s' and cursor after a scan of the string at data in buffer s
      whose outcome is sc: a match (at data) has been cut off with NUL, nothing
      else has changed, and the cursor designates the rest of the text, which
      keeps the original terminator. */
  ghost predicate Scanned(s: seq<char>, data: nat, sc: Scan, s': seq<char>, arg: Option<nat>, cursor: nat)
    requires Terminated(s) && data < |s|
  {
    Terminated(s') && data <= cursor <= End(s, data) && cursor < |s'| &&
    (arg.Some? <==> sc.arg.Some?) &&
    (arg.None? ==> s' == s) &&
    (arg.Some? ==>
       arg.value == data && |sc.arg.value| <= |CStr(s, data)| && CStr(s', data) == sc.arg.value &&
       (|sc.arg.value| == |CStr(s, data)| ==> s' == s) &&
       (|sc.arg.value| < |CStr(s, data)| ==> s' == s[data + |sc.arg.value| := '\0'] && End(s', data) < cursor)) &&
    End(s', cursor) == End(s, data) && CStr(s', cursor) == sc.rest
  }

  /** A scan that found its match at offset k of the string at data (with the
      text after it being rest) leaves a buffer that is cut there and a cursor
      whose string is rest. */
  lemma CutScan(s: seq<char>, data: nat, k: nat, rest: string)
    requires Terminated(s) && data < |s| && k < |CStr(s, data)|
    requires k + 1 <= |CStr(s, data)| - |rest| <= k + 2
    requires rest == CStr(s, data)[|CStr(s, data)| - |rest|..]
    ensures var s' := s[data + k := '\0']; var cursor := data + |CStr(s, data)| - |rest|;
      Scanned(s, data, Scan(Some(CStr(s, data)[..k]), rest), s', Some(data), cursor)
  {
    var s' := s[data + k := '\0'];
    CStrCut(s, data, k);
    CStrTail(s', data + k + 1, data + |CStr(s, data)| - |rest|);
  }

  /** The loop of matchAngleArgument: the index where the bracket-depth scan
      stops, the string's NUL when no delimiter closes the argument. */
  method FindAngleStop(a: array<char>, data: nat, skipToEnd: bool) returns (i: nat)
    requires Terminated(a[..]) && data < a.Length
    ensures data <= i <= End(a[..], data)
    ensures i - data == AngleStop(CStr(a[..], data), 0, skipToEnd, 1)
  {
    ghost var t := CStr(a[..], data);
    i := data;
    var depth := 1;
    while a[i] != '\0'
      invariant data <= i <= End(a[..], data)
      invariant AngleStop(t, i - data, skipToEnd, depth) == AngleStop(t, 0, skipToEnd, 1)
      decreases End(a[..], data) - i
    {
      var c := a[i];
      if c == ',' && !skipToEnd && depth == 1 {
        break;
      }
      if c == '>' && depth == 1 {
        break;
      }
      depth := depth + Delta(c);
      i := i + 1;
    }
  }

  /** The cursor matchAngleArgument leaves after the delimiter at i: past it,
      and past one space after a comma. */
  function AfterDelimiter(s: seq<char>, i: nat): nat
    requires i + 1 < |s|
  {
    if s[i] == ',' && s[i + 1] == ' ' then i + 2 else i + 1
  }

  /** What matchAngleArgument leaves when its scan reaches the NUL at i. */
  lemma AngleScanMissed(s: seq<char>, data: nat, skipToEnd: bool, i: nat)
    requires Terminated(s) && data < |s| && data <= i <= End(s, data) && s[i] == '\0'
    requires i - data == AngleStop(CStr(s, data), 0, skipToEnd, 1)
    ensures Scanned(s, data, AngleArg(CStr(s, data), skipToEnd), s, None, i)
  {
    CStrTail(s, data, i);
  }

  /** What matchAngleArgument leaves when its scan stops at the delimiter at i. */
  lemma AngleScanCut(s: seq<char>, data: nat, skipToEnd: bool, i: nat)
    requires Terminated(s) && data < |s| && data <= i <= End(s, data) && s[i] != '\0'
    requires i - data == AngleStop(CStr(s, data), 0, skipToEnd, 1)
    ensures i + 1 < |s|
    ensures Scanned(s, data, AngleArg(CStr(s, data), skipToEnd), s[i := '\0'], Some(data), AfterDelimiter(s, i))
  {
    var t := CStr(s, data);
    var k := i - data;
    var c := AfterDelimiter(s, i);
    assert t[k] == s[i];
    assert c == data + k + 2 ==> t[k + 1] == s[i + 1];
    assert AngleArg(t, skipToEnd) == Scan(Some(t[..k]), t[c - data..]);
    CutScan(s, data, k, t[c - data..]);
  }

  /** matchAngleArgument: scans the string at the cursor for the delimiter of
      the current template argument.  On success it cuts the argument off with
      NUL, returns it and leaves the cursor past the delimiter (and past one
      space after a comma); at the end of the string it returns null and leaves
      the cursor on the NUL. */
  method MatchAngleArgument(a: array<char>, data: nat, skipToEnd: bool) returns (arg: Option<nat>, cursor: nat)
    requires Terminated(a[..]) && data < a.Length
    modifies a
    ensures Scanned(old(a[..]), data, AngleArg(CStr(old(a[..]), data), skipToEnd), a[..], arg, cursor)
  {
    var i := FindAngleStop(a, data, skipToEnd);
    if a[i] == '\0' {
      AngleScanMissed(a[..], data, skipToEnd, i);
      return None, i;
    }
    AngleScanCut(a[..], data, skipToEnd, i);
    cursor := AfterDelimiter(a[..], i);
    a[i] := '\0';
    arg := Some(data);
  }

  /** The loop of matchName: the index where the identifier scan stops. */
  method FindNameStop(a: array<char>, data: nat) returns (i: nat)
    requires Terminated(a[..]) && data < a.Length
    ensures data <= i <= End(a[..], data)
    ensures i - data == NameStop(CStr(a[..], data), 0, 0)
  {
    ghost var t := CStr(a[..], data);
    i := data;
    var depth := 0;
    while a[i] != '\0'
      invariant data <= i <= End(a[..], data) && depth >= 0
      invariant NameStop(t, i - data, depth) == NameStop(t, 0, 0)
      decreases End(a[..], data) - i
    {
      var c := a[i];
      if IsNameChar(c) {
      } else if c == '<' {
        depth := depth + 1;
      } else if c == '>' && depth > 0 {
        depth := depth - 1;
      } else if depth == 0 {
        break;
      }
      i := i + 1;
    }
  }

  /** What matchName leaves when its scan stops at i on something other than
      the terminator, or on the NUL: nothing is written and the cursor stays. */
  lemma NameScanStays(s: seq<char>, data: nat, terminus: char, i: nat)
    requires Terminated(s) && data < |s| && data <= i <= End(s, data)
    requires i - data == NameStop(CStr(s, data), 0, 0)
    requires s[i] != terminus || s[i] == '\0'
    ensures Scanned(s, data, NameArg(CStr(s, data), terminus), s, if s[i] == terminus then Some(data) else None, i)
  {
    var t := CStr(s, data);
    CStrTail(s, data, i);
    if i < End(s, data) {
      assert t[i - data] == s[i];
    }
  }

  lemma NameArgAtTerminator(t: string, terminus: char, k: nat)
    requires k == NameStop(t, 0, 0) && k < |t| && t[k] == terminus
    ensures NameArg(t, terminus) == Scan(Some(t[..k]), t[k + 1..])
  {
  }

  /** What matchName leaves when its scan stops at the terminator at i. */
  lemma NameScanCut(s: seq<char>, data: nat, sc: Scan, i: nat)
    requires Terminated(s) && data < |s| && data <= i < End(s, data)
    requires sc == Scan(Some(CStr(s, data)[..i - data]), CStr(s, data)[i - data + 1..])
    ensures Scanned(s, data, sc, s[i := '\0'], Some(data), i + 1)
  {
    var t := CStr(s, data);
    var k := i - data;
    var rest := t[k + 1..];
    assert |t| - |rest| == k + 1;
    CutScan(s, data, k, rest);
    assert data + k == i;
  }

  /** matchName: scans an identifier (with any '<...>' groups in it).  When the
      character that stops it is the terminator, the name is cut off with NUL
      (unless the terminator is the NUL itself) and the cursor moves past it;
      otherwise the result is null and the cursor stays where the scan
      stopped. */
  method MatchName(a: array<char>, data: nat, terminus: char) returns (arg: Option<nat>, cursor: nat)
    requires Terminated(a[..]) && data < a.Length
    modifies a
    ensures Scanned(old(a[..]), data, NameArg(CStr(old(a[..]), data), terminus), a[..], arg, cursor)
  {
    var i := FindNameStop(a, data);
    if a[i] != terminus {
      NameScanStays(a[..], data, terminus, i);
      return None, i;
    }
    if a[i] == '\0' {
      NameScanStays(a[..], data, terminus, i);
      return Some(data), i;
    }
    ghost var t := CStr(a[..], data);
    assert t[i - data] == a[i];
    NameArgAtTerminator(t, terminus, i - data);
    NameScanCut(a[..], data, NameArg(t, terminus), i);
    a[i] := '\0';
    arg, cursor := Some(data), i + 1;
  }

  // ---------------------------------------------------------------------------
  // Parsing a string step by step

  /** A parse of the string at data in s0 that has got as far as cursor c in
      buffer s: only that string has been written to, its terminator still
      ends the text at c, and that text is t. */
  ghost predicate Parsing(s0: seq<char>, data: nat, s: seq<char>, c: nat, t: string)
    requires Terminated(s0) && data < |s0|
  {
    Terminated(s) && WritesWithin(s0, s, data, End(s0, data)) &&
    data <= c < |s| && End(s, c) == End(s0, data) && CStr(s, c) == t
  }

  lemma ParsingStarts(s0: seq<char>, data: nat)
    requires Terminated(s0) && data < |s0|
    ensures Parsing(s0, data, s0, data, CStr(s0, data))
  {
  }

  /** Moving the cursor n characters on drops them from the text. */
  lemma ParsingAdvance(s0: seq<char>, data: nat, s: seq<char>, c: nat, t: string, n: nat)
    requires Terminated(s0) && data < |s0| && Parsing(s0, data, s, c, t) && n <= |t|
    ensures Parsing(s0, data, s, c + n, t[n..])
  {
    CStrTail(s, c, c + n);
  }

  /** A scan at the cursor continues the parse with the rest of the text; the
      match it returns reads as the scanned argument, and a match shorter than
      the text ends before the new cursor. */
  lemma ParsingScan(s0: seq<char>, data: nat, s: seq<char>, c: nat, t: string,
                    sc: Scan, s': seq<char>, arg: Option<nat>, c': nat)
    requires Terminated(s0) && data < |s0| && Parsing(s0, data, s, c, t)
    requires Scanned(s, c, sc, s', arg, c')
    ensures Parsing(s0, data, s', c', sc.rest)
    ensures arg.Some? ==> arg.value == c && c < |s'|
    ensures StringAt(s', arg) == Text(sc.arg)
    ensures arg.Some? && |sc.arg.value| < |t| ==> End(s', c) < c'
  {
  }

  /** Writes confined to a string that ends before the cursor leave the parse
      where it was. */
  lemma ParsingNested(s0: seq<char>, data: nat, s: seq<char>, c: nat, t: string, p: nat, s': seq<char>)
    requires Terminated(s0) && data < |s0| && Parsing(s0, data, s, c, t)
    requires data <= p < c && End(s, p) < c
    requires Terminated(s') && WritesWithin(s, s', p, End(s, p))
    ensures Parsing(s0, data, s', c, t)
  {
    CStrFrame(s, s', c);
  }

  /** matchAngleArgument at the cursor of a parse in progress. */
  method ScanArgument(a: array<char>, ghost s0: seq<char>, ghost data: nat, c: nat, ghost t: string, skipToEnd: bool)
    returns (arg: Option<nat>, cursor: nat)
    requires Terminated(s0) && data < |s0| && Parsing(s0, data, a[..], c, t)
    modifies a
    ensures Parsing(s0, data, a[..], cursor, AngleArg(t, skipToEnd).rest)
    ensures arg.Some? <==> AngleArg(t, skipToEnd).arg.Some?
    ensures arg.Some? ==> arg.value == c && End(a[..], c) < cursor
    ensures StringAt(a[..], arg) == Text(AngleArg(t, skipToEnd).arg)
  {
    ghost var s := a[..];
    arg, cursor := MatchAngleArgument(a, c, skipToEnd);
    ParsingScan(s0, data, s, c, t, AngleArg(t, skipToEnd), a[..], arg, cursor);
  }

  /** expectStartsWith at the cursor of a parse in progress. */
  method SkipLiteral(a: array<char>, ghost s0: seq<char>, ghost data: nat, c: nat, ghost t: string, lit: string)
    returns (ok: bool, cursor: nat)
    requires Terminated(s0) && data < |s0| && Parsing(s0, data, a[..], c, t) && NoNul(lit)
    ensures ok == (lit <= t)
    ensures cursor == if ok then c + |lit| else c
    ensures Parsing(s0, data, a[..], cursor, if ok then t[|lit|..] else t)
  {
    ok, cursor := ExpectStartsWith(a, c, lit);
    if ok {
      ParsingAdvance(s0, data, a[..], c, t, |lit|);
    }
  }
}
