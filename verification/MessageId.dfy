/** The message id a client picks, `_handleSubmitted` of
    client/flutter_im/lib/src/pages/chat/onechat.dart: the decimal digits of the user id
    followed by those of the clock in units of 10 ms, read as one number. */
module MessageId {
  import opened Decimal
  import opened Division

  const MAX_INT64 := 0x7FFF_FFFF_FFFF_FFFF

  datatype Parsed = Rek(value: nat) | FormatError

  /** `int.parse` fails on a number that does not fit 64 signed bits. */
  function ParseInt(s: string): Parsed
    requires AllDigits(s)
  {
    if Value(s) <= MAX_INT64 then Rek(Value(s)) else FormatError
  }

  function RekOf(me: nat, millis: nat): Parsed {
    ValueOfConcat(Print(me), Print(millis / 10));
    ParseInt(Print(me) + Print(millis / 10))
  }

  /** The clock reads twelve digits of 10 ms units: from September 2001 to November 2286. */
  predicate TwelveDigits(millis: nat) {
    1_000_000_000_000 <= millis < 10_000_000_000_000
  }

  lemma ConcatIsSum(me: nat, millis: nat)
    requires TwelveDigits(millis)
    ensures Value(Print(me) + Print(millis / 10)) == me * 1_000_000_000_000 + millis / 10
  {
    assert Pow10(11) == 100_000_000_000 && Pow10(12) == 1_000_000_000_000;
    PrintLength(millis / 10, 12);
    ValueOfConcat(Print(me), Print(millis / 10));
    PrintRoundTrip(me);
    PrintRoundTrip(millis / 10);
  }

  /** The id is the user id times 10^12 plus the stamp, and exists exactly for user ids up to
      9223371. */
  lemma RekIsSum(me: nat, millis: nat)
    requires TwelveDigits(millis)
    ensures RekOf(me, millis) == if me <= 9_223_371 then Rek(me * 1_000_000_000_000 + millis / 10) else FormatError
  {
    ConcatIsSum(me, millis);
  }

  /** Two messages get the same id only from the same user within the same 10 ms. */
  lemma RekIsInjective(me: nat, millis: nat, me': nat, millis': nat)
    requires TwelveDigits(millis) && TwelveDigits(millis') && me <= 9_223_371 && me' <= 9_223_371
    ensures RekOf(me, millis) == RekOf(me', millis') <==> me == me' && millis / 10 == millis' / 10
  {
    RekIsSum(me, millis);
    RekIsSum(me', millis');
  }

  // ---------- stamps of any length ----------

  /** The number a client's digits stand for. */
  function RekValue(me: nat, stamp: nat): nat {
    me * Pow10(|Print(stamp)|) + stamp
  }

  lemma RekOfAnyStamp(me: nat, millis: nat)
    ensures var v := RekValue(me, millis / 10); RekOf(me, millis) == if v <= MAX_INT64 then Rek(v) else FormatError
  {
    ValueOfConcat(Print(me), Print(millis / 10));
    PrintRoundTrip(me);
    PrintRoundTrip(millis / 10);
  }

  /** When two ids are the same number: the shorter stamp is the tail of the longer one, and what
      the longer has before it is the tail of the other user's id. */
  lemma SameRekIff(me: nat, stamp: nat, me': nat, stamp': nat)
    requires |Print(stamp')| <= |Print(stamp)|
    ensures var p, p' := Pow10(|Print(stamp)| - |Print(stamp')|), Pow10(|Print(stamp')|);
            RekValue(me, stamp) == RekValue(me', stamp') <==> me' == me * p + stamp / p' && stamp' == stamp % p'
  {
    var k, k' := |Print(stamp)|, |Print(stamp')|;
    PrintBound(stamp');
    PowSum(k - k', k');
    SameNumberIff(me, stamp, me', stamp', Pow10(k - k'), Pow10(k'));
  }

  /** So two stamps of the same length never make two users collide. */
  lemma SameLengthIsInjective(me: nat, stamp: nat, me': nat, stamp': nat)
    requires |Print(stamp)| == |Print(stamp')|
    ensures RekValue(me, stamp) == RekValue(me', stamp') <==> me == me' && stamp == stamp'
  {
    SameRekIff(me, stamp, me', stamp');
    PrintBound(stamp);
    DivUnique(stamp, Pow10(|Print(stamp)|), 0, stamp);
  }
}
