/** Percent-decoding of logic/controller/osshandle.go: `unescapePath`, `shouldEscape`,
    `ishex` and `unhex`, against section 2.1 of RFC 3986. */
module PercentDecoding {
  import opened Words

  datatype Encoding = Path | PathSegment | Host | Zone | UserPassword | QueryComponent | Fragment

  datatype Error = EscapeError(text: bytes) | InvalidHostError(text: bytes)

  datatype Unescaped = Ok(text: bytes) | Err(error: Error)

  const PERCENT: byte := 0x25
  const PLUS: byte := 0x2B
  const SPACE: byte := 0x20

  predicate Among(c: byte, cs: string) {
    (c as char) in cs
  }

  predicate IsHex(c: byte) {
    || 0x30 <= c <= 0x39
    || 0x61 <= c <= 0x66
    || 0x41 <= c <= 0x46
  }

  function Unhex(c: byte): (v: byte)
    ensures v < 16
  {
    if 0x30 <= c <= 0x39 then c - 0x30
    else if 0x61 <= c <= 0x66 then c - 0x61 + 10
    else if 0x41 <= c <= 0x46 then c - 0x41 + 10
    else 0
  }

  /** `unhex(h)<<4 | unhex(l)`: the low nibble of the shifted value is zero, so or is plus. */
  function FromHex(h: byte, l: byte): byte {
    Unhex(h) * 16 + Unhex(l)
  }

  predicate ShouldEscape(c: byte, mode: Encoding) {
    if (0x41 <= c <= 0x5A) || (0x61 <= c <= 0x7A) || (0x30 <= c <= 0x39) then false
    else if (mode.Host? || mode.Zone?) && Among(c, "!$&'()*+,;=:[]<>\"") then false
    else if Among(c, "-_.~") then false
    else if Among(c, "$&+,/:;=?@") && !mode.Host? && !mode.Zone? then
      match mode
      case Path => Among(c, "?")
      case PathSegment => Among(c, "/;,?")
      case UserPassword => Among(c, "@/?:")
      case QueryComponent => true
      case _ => false
    else true
  }

  // ---------- specification ----------

  /** Why the text cannot be decoded at its first byte, if it cannot. */
  function HeadError(s: bytes, mode: Encoding): (e: seq<Error>)
    requires s != []
    ensures e == [] && s[0] == PERCENT ==> 3 <= |s|
  {
    if s[0] == PERCENT then
      if |s| < 3 || !IsHex(s[1]) || !IsHex(s[2]) then [EscapeError(if |s| > 3 then s[..3] else s)]
      else if mode.Host? && Unhex(s[1]) < 8 && s[..3] != [PERCENT, 0x32, 0x35] then [EscapeError(s[..3])]
      else if mode.Zone? && s[..3] != [PERCENT, 0x32, 0x35] && FromHex(s[1], s[2]) != SPACE
              && ShouldEscape(FromHex(s[1], s[2]), Host) then [EscapeError(s[..3])]
      else []
    else if s[0] == PLUS then []
    else if (mode.Host? || mode.Zone?) && s[0] < 0x80 && ShouldEscape(s[0], mode) then [InvalidHostError(s[..1])]
    else []
  }

  function HeadLength(s: bytes): nat
    requires s != []
  {
    if s[0] == PERCENT then 3 else 1
  }

  function HeadByte(s: bytes, mode: Encoding): byte
    requires s != [] && HeadError(s, mode) == []
  {
    if s[0] == PERCENT then FromHex(s[1], s[2])
    else if s[0] == PLUS && mode.QueryComponent? then SPACE
    else s[0]
  }

  /** Decoding, one escape or plain byte at a time. */
  function Decode(s: bytes, mode: Encoding): Unescaped {
    if s == [] then Ok([])
    else if HeadError(s, mode) != [] then Err(HeadError(s, mode)[0])
    else
      match Decode(s[HeadLength(s)..], mode)
      case Err(e) => Err(e)
      case Ok(tail) => Ok([HeadByte(s, mode)] + tail)
  }

  /** Number of escapes met before the end of the text or the first error. */
  function Escapes(s: bytes, mode: Encoding): nat {
    if s == [] || HeadError(s, mode) != [] then 0
    else Escapes(s[HeadLength(s)..], mode) + if s[0] == PERCENT then 1 else 0
  }

  /** Each escape is three bytes of text for one byte of result. */
  lemma {:induction false} DecodedLength(s: bytes, mode: Encoding)
    requires Decode(s, mode).Ok?
    ensures |Decode(s, mode).text| == |s| - 2 * Escapes(s, mode)
  {
    if s != [] {
      DecodedLength(s[HeadLength(s)..], mode);
    }
  }

  /** Every '%' is followed by two hexadecimal digits. */
  ghost predicate WellFormed(s: bytes) {
    forall i :: 0 <= i < |s| && s[i] == PERCENT ==> i + 2 < |s| && IsHex(s[i + 1]) && IsHex(s[i + 2])
  }

  /** Outside host names decoding succeeds exactly on the well-formed texts. */
  lemma {:induction false} DecodesIffWellFormed(s: bytes, mode: Encoding)
    requires !mode.Host? && !mode.Zone?
    ensures Decode(s, mode).Ok? <==> WellFormed(s)
  {
    if s != [] {
      if HeadError(s, mode) != [] {
        assert !(0 + 2 < |s| && IsHex(s[0 + 1]) && IsHex(s[0 + 2]));
      } else {
        var n := HeadLength(s);
        DecodesIffWellFormed(s[n..], mode);
        WellFormedTail(s, n);
      }
    }
  }

  lemma {:induction false} WellFormedTail(s: bytes, n: nat)
    requires s != [] && n <= |s| && HeadLength(s) == n
    requires s[0] == PERCENT ==> 2 < |s| && IsHex(s[1]) && IsHex(s[2])
    ensures WellFormed(s) <==> WellFormed(s[n..])
  {
    forall i | 0 <= i < |s| - n ensures s[n..][i] == s[n + i] {
    }
    if WellFormed(s[n..]) {
      forall i | 0 <= i < |s| && s[i] == PERCENT ensures i + 2 < |s| && IsHex(s[i + 1]) && IsHex(s[i + 2]) {
        if n <= i {
          assert s[n..][i - n] == PERCENT;
        }
      }
    }
    if WellFormed(s) {
      forall i | 0 <= i < |s[n..]| && s[n..][i] == PERCENT
        ensures i + 2 < |s[n..]| && IsHex(s[n..][i + 1]) && IsHex(s[n..][i + 2])
      {
        assert s[n + i] == PERCENT;
      }
    }
  }

  // ---------- the escaping it undoes ----------

  function HexDigit(v: byte): (c: byte)
    requires v < 16
    ensures IsHex(c) && Unhex(c) == v
  {
    if v < 10 then 0x30 + v else 0x41 + (v - 10)
  }

  /** Percent-encoding of exactly the bytes `ShouldEscape` selects. */
  function Escape(s: bytes, mode: Encoding): bytes {
    if s == [] then [] else EscapeByte(s[0], mode) + Escape(s[1..], mode)
  }

  function EscapeByte(c: byte, mode: Encoding): bytes {
    if ShouldEscape(c, mode) then [PERCENT, HexDigit(c / 16), HexDigit(c % 16)] else [c]
  }

  lemma {:induction false} EscapedByteDecodes(c: byte, mode: Encoding, with: Encoding, tail: bytes)
    requires !with.Host? && !with.Zone? && (with.QueryComponent? ==> mode.QueryComponent?)
    ensures var s := EscapeByte(c, mode) + tail;
            HeadError(s, with) == [] && HeadByte(s, with) == c && s[HeadLength(s)..] == tail
  {
    var s := EscapeByte(c, mode) + tail;
    assert Among(PLUS, "$&+,/:;=?@") by {
      assert "$&+,/:;=?@"[2] == '+';
    }
    if ShouldEscape(c, mode) {
      assert s[0] == PERCENT && s[1] == HexDigit(c / 16) && s[2] == HexDigit(c % 16);
    }
  }

  /** For every text and every mode of escaping, unescaping gives the text back. */
  lemma {:induction false} UnescapeInvertsEscape(s: bytes, mode: Encoding, with: Encoding)
    requires !with.Host? && !with.Zone? && (with.QueryComponent? ==> mode.QueryComponent?)
    ensures Decode(Escape(s, mode), with) == Ok(s)
  {
    if s != [] {
      UnescapeInvertsEscape(s[1..], mode, with);
      EscapedByteDecodes(s[0], mode, with, Escape(s[1..], mode));
      assert s == [s[0]] + s[1..];
    }
  }

  // ---------- all spellings ----------

  /** The hexadecimal digits by value, in either case. */
  function HexChar(v: byte, upper: bool): (c: byte)
    requires v < 16
  {
    (if upper then "0123456789ABCDEF"[v] else "0123456789abcdef"[v]) as int as byte
  }

  lemma HexCharStands(v: byte, upper: bool)
    requires v < 16
    ensures IsHex(HexChar(v, upper)) && Unhex(HexChar(v, upper)) == v
  {
  }

  lemma HexCharOf(c: byte)
    requires IsHex(c)
    ensures c == HexChar(Unhex(c), true) || c == HexChar(Unhex(c), false)
  {
  }

  /** How a byte is spelled: as it is, by an escape with digits in either case, or by a plus sign. */
  datatype Spelling = Plain | Escaped(upper1: bool, upper2: bool) | PlusSign

  function SpellByte(c: byte, how: Spelling): bytes {
    match how
    case Plain => [c]
    case Escaped(upper1, upper2) => [0x25, HexChar(c / 16, upper1), HexChar(c % 16, upper2)]
    case PlusSign => [0x2B]
  }

  /** A percent sign has to be escaped. In a query a plus sign stands for a space. */
  predicate MaySpell(c: byte, how: Spelling, mode: Encoding) {
    match how
    case Plain => c != 0x25 && !(mode.QueryComponent? && c == 0x2B)
    case Escaped(_, _) => true
    case PlusSign => mode.QueryComponent? && c == 0x20
  }

  /** `s` spells `text`, byte by byte in the ways `how`. */
  predicate IsSpelling(s: bytes, text: bytes, how: seq<Spelling>, mode: Encoding) {
    if text == [] || how == [] then s == [] && text == [] && how == []
    else
      var head := SpellByte(text[0], how[0]);
      MaySpell(text[0], how[0], mode) && head <= s && IsSpelling(s[|head|..], text[1..], how[1..], mode)
  }

  ghost predicate Spelled(s: bytes, text: bytes, mode: Encoding) {
    exists how :: |how| == |text| && IsSpelling(s, text, how, mode)
  }

  lemma SpelledHead(s: bytes, c: byte, how: Spelling, mode: Encoding)
    requires !mode.Host? && !mode.Zone? && MaySpell(c, how, mode) && SpellByte(c, how) <= s
    ensures HeadError(s, mode) == [] && HeadByte(s, mode) == c && HeadLength(s) == |SpellByte(c, how)|
  {
    assert s[..|SpellByte(c, how)|] == SpellByte(c, how);
    assert forall i :: 0 <= i < |SpellByte(c, how)| ==> s[i] == SpellByte(c, how)[i];
    if how.Escaped? {
      HexCharStands(c / 16, how.upper1);
      HexCharStands(c % 16, how.upper2);
    }
  }

  /** How the first byte of a text that decodes is spelled. */
  lemma HeadIsSpelled(s: bytes, mode: Encoding) returns (how: Spelling)
    requires s != [] && !mode.Host? && !mode.Zone? && HeadError(s, mode) == []
    ensures MaySpell(HeadByte(s, mode), how, mode) && SpellByte(HeadByte(s, mode), how) <= s
    ensures |SpellByte(HeadByte(s, mode), how)| == HeadLength(s)
  {
    if s[0] == PERCENT {
      var c := FromHex(s[1], s[2]);
      assert c / 16 == Unhex(s[1]) && c % 16 == Unhex(s[2]);
      HexCharOf(s[1]);
      HexCharOf(s[2]);
      how := Escaped(s[1] == HexChar(c / 16, true), s[2] == HexChar(c % 16, true));
    } else if s[0] == PLUS && mode.QueryComponent? {
      how := PlusSign;
    } else {
      how := Plain;
    }
  }

  lemma {:induction false} SpellingDecodes(s: bytes, text: bytes, how: seq<Spelling>, mode: Encoding)
    requires !mode.Host? && !mode.Zone? && IsSpelling(s, text, how, mode)
    ensures Decode(s, mode) == Ok(text)
  {
    if text != [] {
      SpelledHead(s, text[0], how[0], mode);
      SpellingDecodes(s[HeadLength(s)..], text[1..], how[1..], mode);
      assert text == [text[0]] + text[1..];
    }
  }

  lemma {:induction false} DecodedIsSpelling(s: bytes, mode: Encoding) returns (how: seq<Spelling>)
    requires !mode.Host? && !mode.Zone? && Decode(s, mode).Ok?
    ensures |how| == |Decode(s, mode).text| && IsSpelling(s, Decode(s, mode).text, how, mode)
  {
    if s == [] {
      how := [];
    } else {
      var head := HeadIsSpelled(s, mode);
      var tail := DecodedIsSpelling(s[HeadLength(s)..], mode);
      how := [head] + tail;
      assert Decode(s, mode).text[1..] == Decode(s[HeadLength(s)..], mode).text && how[1..] == tail;
    }
  }

  /** A text decodes to `text` if and only if it spells it, whatever bytes are escaped and in
      whichever case the digits are. */
  lemma DecodesIffSpells(s: bytes, text: bytes, mode: Encoding)
    requires !mode.Host? && !mode.Zone?
    ensures Decode(s, mode) == Ok(text) <==> Spelled(s, text, mode)
  {
    if Decode(s, mode) == Ok(text) {
      var how := DecodedIsSpelling(s, mode);
    } else if how :| |how| == |text| && IsSpelling(s, text, how, mode) {
      SpellingDecodes(s, text, how, mode);
    }
  }

  /** Byte `i` is a percent sign without two hexadecimal digits behind it. */
  predicate Broken(s: bytes, i: nat)
    requires i < |s|
  {
    s[i] == 0x25 && !(i + 2 < |s| && IsHex(s[i + 1]) && IsHex(s[i + 2]))
  }

  /** The bytes from `i` on, three at most. */
  function Triple(s: bytes, i: nat): bytes
    requires i < |s|
  {
    if i + 3 < |s| then s[i..i + 3] else s[i..]
  }

  predicate NoneBroken(s: bytes, n: nat)
    requires n <= |s|
  {
    forall j :: 0 <= j < n ==> !Broken(s, j)
  }

  lemma HeadRefused(s: bytes, n: nat, mode: Encoding)
    requires !mode.Host? && !mode.Zone? && n < |s| && HeadError(s[n..], mode) != []
    ensures Broken(s, n) && HeadError(s[n..], mode) == [EscapeError(Triple(s, n))]
  {
    assert |s| - n > 3 ==> s[n..][..3] == s[n..n + 3];
  }

  lemma HeadAccepted(s: bytes, n: nat, mode: Encoding)
    requires !mode.Host? && !mode.Zone? && n < |s| && HeadError(s[n..], mode) == []
    ensures n + HeadLength(s[n..]) <= |s| && s[n..][HeadLength(s[n..])..] == s[n + HeadLength(s[n..])..]
    ensures NoneBroken(s, n) ==> NoneBroken(s, n + HeadLength(s[n..]))
  {
    assert s[n..][0] == s[n];
    if s[n] == PERCENT {
      assert s[n..][1] == s[n + 1] && s[n..][2] == s[n + 2];
    }
  }

  /** A text that does not decode is refused at its first broken escape, with the bytes from there
      on, three at most. */
  lemma {:induction false} RefusedAtFirst(s: bytes, n: nat, mode: Encoding) returns (i: nat)
    requires !mode.Host? && !mode.Zone? && n <= |s| && Decode(s[n..], mode).Err?
    requires NoneBroken(s, n)
    ensures i < |s| && Broken(s, i) && NoneBroken(s, i)
    ensures Decode(s[n..], mode) == Err(EscapeError(Triple(s, i)))
    decreases |s| - n
  {
    if HeadError(s[n..], mode) != [] {
      HeadRefused(s, n, mode);
      i := n;
    } else {
      HeadAccepted(s, n, mode);
      var next := n + HeadLength(s[n..]);
      assert Decode(s[n..], mode) == Decode(s[next..], mode);
      i := RefusedAtFirst(s, next, mode);
    }
  }

  /** The characters each part of a URL leaves unescaped, besides letters, digits and "-_.~". */
  lemma ShouldEscapeIff(c: byte, mode: Encoding)
    ensures ShouldEscape(c, mode) <==>
              && !('a' <= c as char <= 'z') && !('A' <= c as char <= 'Z') && !('0' <= c as char <= '9')
              && (c as char) !in "-_.~"
              && (mode.Path? ==> (c as char) !in "$&+,/:;=@")
              && (mode.PathSegment? ==> (c as char) !in "$&+:=@")
              && (mode.UserPassword? ==> (c as char) !in "$&+,;=")
              && (mode.Fragment? ==> (c as char) !in "$&+,/:;=?@")
              && (mode.Host? || mode.Zone? ==> (c as char) !in "!$&'()*+,;=:[]<>\"")
  {
  }

  /** A byte a host name may hold as it is. */
  predicate HostChar(c: byte) {
    || 'a' <= c as char <= 'z' || 'A' <= c as char <= 'Z' || '0' <= c as char <= '9'
    || (c as char) in "-_.~!$&'()*+,;=:[]<>\""
  }

  /** What a host name may start with: an escape only for a byte from 0x80 on or for the percent
      sign, and besides these a host character, a plus sign or a byte from 0x80 on. */
  lemma HostHead(s: bytes)
    requires s != [] && !Broken(s, 0)
    ensures if s[0] == 0x25 then
              HeadError(s, Host) == if (s[1] as char) in "89abcdefABCDEF" || (s[1] == 0x32 && s[2] == 0x35) then [] else [EscapeError(s[..3])]
            else
              HeadError(s, Host) == if HostChar(s[0]) || s[0] >= 0x80 then [] else [InvalidHostError(s[..1])]
  {
    ShouldEscapeIff(s[0], Host);
    PlusIsHostChar();
    if s[0] == 0x25 {
      assert s[..3] == [PERCENT, 0x32, 0x35] <==> s[1] == 0x32 && s[2] == 0x35;
      HighDigits(s[1]);
    }
  }

  lemma PlusIsHostChar()
    ensures HostChar(0x2B)
  {
    assert "-_.~!$&'()*+,;=:[]<>\""[11] == '+';
  }

  /** The digits of values from 8 on. */
  lemma HighDigits(c: byte)
    requires IsHex(c)
    ensures Unhex(c) >= 8 <==> (c as char) in "89abcdefABCDEF"
  {
  }

  /** What a zone may start with: an escape only for a space, the percent sign or what the zone may
      hold as it is. */
  lemma ZoneHead(s: bytes)
    requires s != [] && !Broken(s, 0)
    ensures if s[0] == 0x25 then
              var c := Unhex(s[1]) * 16 + Unhex(s[2]);
              HeadError(s, Zone) == if c == 0x25 || c == 0x20 || HostChar(c) then [] else [EscapeError(s[..3])]
            else
              HeadError(s, Zone) == if HostChar(s[0]) || s[0] >= 0x80 then [] else [InvalidHostError(s[..1])]
  {
    if s[0] == 0x25 {
      ZoneEscape(s);
    } else {
      ShouldEscapeIff(s[0], Zone);
      PlusIsHostChar();
    }
  }

  lemma ZoneEscape(s: bytes)
    requires s != [] && !Broken(s, 0) && s[0] == 0x25
    ensures var c := FromHex(s[1], s[2]);
            HeadError(s, Zone) == if c == 0x25 || c == 0x20 || !ShouldEscape(c, Host) then [] else [EscapeError(s[..3])]
    ensures var c := FromHex(s[1], s[2]); ShouldEscape(c, Host) <==> !HostChar(c)
  {
    ShouldEscapeIff(FromHex(s[1], s[2]), Host);
    PercentEscape(s[1], s[2]);
    assert s[..3] == [PERCENT, 0x32, 0x35] <==> s[1] == 0x32 && s[2] == 0x35;
  }

  /** Only "%25" escapes the percent sign. */
  lemma PercentEscape(h: byte, l: byte)
    requires IsHex(h) && IsHex(l)
    ensures FromHex(h, l) == 0x25 <==> h == 0x32 && l == 0x35
  {
    assert FromHex(h, l) / 16 == Unhex(h) && FromHex(h, l) % 16 == Unhex(l);
  }

  // ---------- the two-pass decoder ----------

  /** What the first pass has found when it stands at byte `i`. */
  ghost predicate Scanned(s: bytes, mode: Encoding, i: nat, n: nat, hasPlus: bool) {
    && i <= |s| && (hasPlus ==> mode.QueryComponent?)
    && match Decode(s[i..], mode)
       case Err(e) => Decode(s, mode) == Err(e)
       case Ok(text) =>
         && Decode(s, mode).Ok? && n + Escapes(s[i..], mode) == Escapes(s, mode)
         && (n == 0 && !hasPlus && text == s[i..] ==> Decode(s, mode) == Ok(s))
  }

  lemma {:induction false} ScanStep(s: bytes, mode: Encoding, i: nat, n: nat, hasPlus: bool)
    requires i < |s| && Scanned(s, mode, i, n, hasPlus) && HeadError(s[i..], mode) == []
    ensures i + HeadLength(s[i..]) <= |s|
    ensures Scanned(s, mode, i + HeadLength(s[i..]), if s[i] == PERCENT then n + 1 else n,
                    if s[i] == PLUS then mode.QueryComponent? else hasPlus)
  {
    var t := s[i..];
    assert t[HeadLength(t)..] == s[i + HeadLength(t)..];
    assert t == [t[0]] + t[1..];
  }

  /** The tests of the first pass at byte `i`; no error, or the one to return. */
  method CheckAt(s: bytes, i: nat, mode: Encoding) returns (e: seq<Error>)
    requires i < |s|
    ensures e == HeadError(s[i..], mode)
  {
    ghost var t := s[i..];
    var c := s[i];
    if c == PERCENT {
      if i + 2 >= |s| || !IsHex(s[i + 1]) || !IsHex(s[i + 2]) {
        var u := s[i..];
        if |u| > 3 {
          u := u[..3];
        }
        return [EscapeError(u)];
      }
      assert s[i..i + 3] == t[..3];
      if mode == Host && Unhex(s[i + 1]) < 8 && s[i..i + 3] != [PERCENT, 0x32, 0x35] {
        return [EscapeError(s[i..i + 3])];
      }
      if mode == Zone {
        var v := FromHex(s[i + 1], s[i + 2]);
        if s[i..i + 3] != [PERCENT, 0x32, 0x35] && v != SPACE && ShouldEscape(v, Host) {
          return [EscapeError(s[i..i + 3])];
        }
      }
    } else if c != PLUS && (mode == Host || mode == Zone) && c < 0x80 && ShouldEscape(c, mode) {
      assert s[i..i + 1] == t[..1];
      return [InvalidHostError(s[i..i + 1])];
    }
    return [];
  }

  /** The first pass: the error to return, or the number of escapes and whether the last plus sign
      stands for a space. */
  method Count(s: bytes, mode: Encoding) returns (e: seq<Error>, n: nat, hasPlus: bool)
    ensures e != [] ==> Decode(s, mode) == Err(e[0])
    ensures e == [] ==> Decode(s, mode).Ok? && n == Escapes(s, mode) && (n == 0 && !hasPlus ==> Decode(s, mode) == Ok(s))
  {
    e, n, hasPlus := [], 0, false;
    var i := 0;
    assert s[0..] == s;
    while i < |s|
      invariant Scanned(s, mode, i, n, hasPlus)
      decreases |s| - i
    {
      e := CheckAt(s, i, mode);
      if e != [] {
        return;
      }
      ScanStep(s, mode, i, n, hasPlus);
      if s[i] == PERCENT {
        n := n + 1;
        i := i + 3;
      } else if s[i] == PLUS {
        hasPlus := mode == QueryComponent;
        i := i + 1;
      } else {
        i := i + 1;
      }
    }
    e := [];
  }

  /** `unescapePath` with the mode left open: a counting pass, then a pass that fills an array
      of exactly the size counted. */
  method Unescape(s: bytes, mode: Encoding) returns (r: Unescaped)
    ensures r == Decode(s, mode)
  {
    var e, n, hasPlus := Count(s, mode);
    if e != [] {
      return Err(e[0]);
    }
    if n == 0 && !hasPlus {
      return Ok(s);
    }
    ghost var text := Decode(s, mode).text;
    DecodedLength(s, mode);
    assert s[0..] == s && text[0..] == text;
    DecodedIsSpelled(s, mode, 0, text, 0);
    var t := new byte[|s| - 2 * n];
    Fill(s, mode, t, text);
    r := Ok(t[..]);
  }

  /** From byte `i` on, `s` spells the bytes of `text` from `j` on; by index, without slices. */
  ghost predicate Spells(s: bytes, mode: Encoding, i: nat, text: bytes, j: nat)
    decreases |s| - i
  {
    if i >= |s| then i == |s| && j == |text|
    else if j >= |text| then false
    else if s[i] == PERCENT then
      i + 2 < |s| && text[j] == FromHex(s[i + 1], s[i + 2]) && Spells(s, mode, i + 3, text, j + 1)
    else
      text[j] == (if s[i] == PLUS && mode.QueryComponent? then SPACE else s[i]) && Spells(s, mode, i + 1, text, j + 1)
  }

  lemma {:induction false} DecodedIsSpelled(s: bytes, mode: Encoding, i: nat, text: bytes, j: nat)
    requires i <= |s| && j <= |text| && Decode(s[i..], mode) == Ok(text[j..])
    ensures Spells(s, mode, i, text, j)
    decreases |s| - i
  {
    if i < |s| {
      var t := s[i..];
      assert t[HeadLength(t)..] == s[i + HeadLength(t)..];
      var tail := Decode(t[HeadLength(t)..], mode).text;
      assert text[j..] == [HeadByte(t, mode)] + tail;
      assert |text[j..]| > 0;
      assert text[j + 1..] == text[j..][1..];
      DecodedIsSpelled(s, mode, i + HeadLength(t), text, j + 1);
    }
  }

  /** The second pass fills the array to the last byte. */
  method Fill(s: bytes, mode: Encoding, t: array<byte>, ghost text: bytes)
    requires Spells(s, mode, 0, text, 0) && t.Length == |text|
    modifies t
    ensures t[..] == text
  {
    var i, j := 0, 0;
    while i < |s|
      invariant j <= t.Length && Spells(s, mode, i, text, j)
      invariant forall k :: 0 <= k < j ==> t[k] == text[k]
      decreases |s| - i
    {
      if s[i] == PERCENT {
        t[j] := FromHex(s[i + 1], s[i + 2]);
        j := j + 1;
        i := i + 3;
      } else if s[i] == PLUS {
        if mode == QueryComponent {
          t[j] := SPACE;
        } else {
          t[j] := PLUS;
        }
        j := j + 1;
        i := i + 1;
      } else {
        t[j] := s[i];
        j := j + 1;
        i := i + 1;
      }
    }
  }

  /** `unescapePath` overwrites its mode argument: it always decodes a path segment. */
  method UnescapePath(s: bytes, mode: Encoding) returns (r: Unescaped)
    ensures r == Decode(s, PathSegment)
    ensures r.Ok? <==> WellFormed(s)
    ensures forall text :: r == Ok(text) <==> Spelled(s, text, PathSegment)
    ensures r.Err? ==>
              exists i :: 0 <= i < |s| && Broken(s, i) && NoneBroken(s, i)
                          && r.error == EscapeError(if i + 3 < |s| then s[i..i + 3] else s[i..])
  {
    DecodesIffWellFormed(s, PathSegment);
    r := Unescape(s, PathSegment);
    forall text ensures r == Ok(text) <==> Spelled(s, text, PathSegment) {
      DecodesIffSpells(s, text, PathSegment);
    }
    if r.Err? {
      assert s[0..] == s;
      ghost var i := RefusedAtFirst(s, 0, PathSegment);
    }
  }
}
