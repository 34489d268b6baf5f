/**
 The address check of mqproxy: a string is accepted when the WHOLE of it is
 four octets separated by dots, an octet being "25" and a digit 0-5, or "2",
 a digit 0-4 and any digit, or an optional "0" or "1" followed by one or two
 digits. This is written out as a predicate on one octet and a split on '.',
 and is proved equal to the pattern's own shape (an octet followed by three
 dot-octet groups) and to the arithmetic reading "one to three digits whose
 value is at most 255". Unlike the dec-octet rule of section 3.2.2 of
 RFC 3986, leading zeros ("01", "001") are accepted.
 */
module IpAddress {

  predicate IsDigit(c: char) {
    '0' <= c <= '9'
  }

  function DigitValue(c: char): (v: nat)
    requires IsDigit(c)
    ensures v <= 9
  {
    (c as int) - ('0' as int)
  }

  predicate AllDigits(s: string) {
    forall i :: 0 <= i < |s| ==> IsDigit(s[i])
  }

  /** The decimal value of a string of digits, most significant digit first. */
  function DecimalValue(s: string): (v: nat)
    requires AllDigits(s)
  {
    if |s| == 0 then 0 else DecimalValue(s[..|s| - 1]) * 10 + DigitValue(s[|s| - 1])
  }

  /** One octet of the pattern: the three alternatives, in the pattern's order. */
  predicate IsOctet(s: string)
    ensures IsOctet(s) ==> 1 <= |s| <= 3 && AllDigits(s)
  {
    // 25[0-5]
    || (|s| == 3 && s[0] == '2' && s[1] == '5' && '0' <= s[2] <= '5')
    // 2[0-4][0-9]
    || (|s| == 3 && s[0] == '2' && '0' <= s[1] <= '4' && IsDigit(s[2]))
    // [01]?[0-9][0-9]?
    || (|s| == 1 && IsDigit(s[0]))
    || (|s| == 2 && IsDigit(s[0]) && IsDigit(s[1]))
    || (|s| == 3 && (s[0] == '0' || s[0] == '1') && IsDigit(s[1]) && IsDigit(s[2]))
  }

  /** The pieces of s between occurrences of sep (always at least one piece). */
  function Split(s: string, sep: char): (parts: seq<string>)
    ensures |parts| >= 1
    decreases |s|
  {
    if |s| == 0 then
      [""]
    else
      var rest := Split(s[1..], sep);
      if s[0] == sep then [""] + rest else [[s[0]] + rest[0]] + rest[1..]
  }

  /** The pieces put back together with sep between each two neighbours. */
  function Join(parts: seq<string>, sep: char): string
    requires |parts| >= 1
  {
    if |parts| == 1 then parts[0] else parts[0] + [sep] + Join(parts[1..], sep)
  }

  /** is_ip_address: four dot-separated parts, each an octet. */
  predicate IsIpAddress(s: string)
    ensures IsIpAddress(s) ==> 7 <= |s| <= 15
  {
    var parts := Split(s, '.');
    JoinSplit(s, '.');
    if |parts| == 4 then
      JoinFour(parts, '.');
      && IsOctet(parts[0]) && IsOctet(parts[1]) && IsOctet(parts[2]) && IsOctet(parts[3])
    else
      false
  }

  /** The shape of the pattern itself: octet "." octet "." octet "." octet. */
  function Dotted(a: string, b: string, c: string, d: string): string {
    a + "." + b + "." + c + "." + d
  }

  ghost predicate MatchesPattern(s: string) {
    exists a, b, c, d ::
      IsOctet(a) && IsOctet(b) && IsOctet(c) && IsOctet(d) && s == Dotted(a, b, c, d)
  }

  // ---------------------------------------------------------------------------
  // Octets

  lemma DecimalValue3(s: string)
    requires |s| == 3 && AllDigits(s)
    ensures DecimalValue(s) == DigitValue(s[0]) * 100 + DigitValue(s[1]) * 10 + DigitValue(s[2])
  {
    var s2, s1 := s[..2], s[..1];
    assert s2[..1] == s1 && s1[..0] == [];
    assert DecimalValue(s1) == DigitValue(s[0]);
    assert DecimalValue(s2) == DigitValue(s[0]) * 10 + DigitValue(s[1]);
  }

  lemma DecimalValue2(s: string)
    requires |s| == 2 && AllDigits(s)
    ensures DecimalValue(s) == DigitValue(s[0]) * 10 + DigitValue(s[1]) <= 99
  {
    var s1 := s[..1];
    assert s1[..0] == [];
    assert DecimalValue(s1) == DigitValue(s[0]);
  }

  /** An octet is exactly one to three digits whose value is at most 255. */
  lemma OctetIffBoundedDigits(s: string)
    ensures IsOctet(s) <==> 1 <= |s| <= 3 && AllDigits(s) && DecimalValue(s) <= 255
  {
    if 1 <= |s| <= 3 && AllDigits(s) {
      if |s| == 3 {
        DecimalValue3(s);
      } else if |s| == 2 {
        DecimalValue2(s);
      }
    }
  }

  /** Leading zeros are accepted by the pattern, unlike RFC 3986. */
  lemma LeadingZerosAccepted()
    ensures IsOctet("0") && IsOctet("00") && IsOctet("01") && IsOctet("001") && IsOctet("099")
    ensures !IsOctet("0001") && !IsOctet("256") && !IsOctet("999") && !IsOctet("")
  {
  }

  // ---------------------------------------------------------------------------
  // Splitting

  /** A piece free of sep is carried whole into the first piece of the split. */
  lemma {:induction false} SplitAppend(p: string, t: string, sep: char)
    requires sep !in p
    ensures Split(p + t, sep) == [p + Split(t, sep)[0]] + Split(t, sep)[1..]
    decreases |p|
  {
    if |p| == 0 {
      var st := Split(t, sep);
      assert p + t == t && st == [st[0]] + st[1..] && p + st[0] == st[0];
    } else {
      assert p[0] in p;
      SplitAppend(p[1..], t, sep);
      var st := Split(t, sep);
      assert (p + t)[0] == p[0] != sep && (p + t)[1..] == p[1..] + t;
      var rest := Split(p[1..] + t, sep);
      assert rest[0] == p[1..] + st[0] && rest[1..] == st[1..];
      assert Split(p + t, sep) == [[p[0]] + rest[0]] + rest[1..];
      assert [p[0]] + (p[1..] + st[0]) == p + st[0];
    }
  }

  /** Splitting undoes joining when no piece contains the separator. */
  lemma {:induction false} SplitJoin(parts: seq<string>, sep: char)
    requires |parts| >= 1
    requires forall i :: 0 <= i < |parts| ==> sep !in parts[i]
    ensures Split(Join(parts, sep), sep) == parts
    decreases |parts|
  {
    if |parts| == 1 {
      SplitAppend(parts[0], "", sep);
      assert parts[0] + "" == parts[0];
    } else {
      var rest := parts[1..];
      SplitJoin(rest, sep);
      SplitAppend(parts[0], [sep] + Join(rest, sep), sep);
      assert parts[0] + [sep] + Join(rest, sep) == parts[0] + ([sep] + Join(rest, sep));
      assert parts[0] + "" == parts[0];
      assert parts == [parts[0]] + rest;
    }
  }

  lemma JoinHeadCons(c: char, parts: seq<string>, sep: char)
    requires |parts| >= 1
    ensures Join([[c] + parts[0]] + parts[1..], sep) == [c] + Join(parts, sep)
  {
    var q := [[c] + parts[0]] + parts[1..];
    assert q[1..] == parts[1..];
  }

  /** Joining undoes splitting: no character is lost or added. */
  lemma {:induction false} JoinSplit(s: string, sep: char)
    ensures Join(Split(s, sep), sep) == s
    decreases |s|
  {
    if |s| > 0 {
      var rest := Split(s[1..], sep);
      JoinSplit(s[1..], sep);
      if s[0] == sep {
        assert ([""] + rest)[1..] == rest;
      } else {
        JoinHeadCons(s[0], rest, sep);
      }
      assert s == [s[0]] + s[1..];
    }
  }

  // ---------------------------------------------------------------------------
  // The whole address

  lemma OctetHasNoDot(s: string)
    requires IsOctet(s)
    ensures '.' !in s
  {
  }

  lemma JoinFour(parts: seq<string>, sep: char)
    requires |parts| == 4
    ensures Join(parts, sep) == parts[0] + [sep] + parts[1] + [sep] + parts[2] + [sep] + parts[3]
  {
    var p1, p2, p3 := parts[1..], parts[2..], parts[3..];
    assert p1[1..] == p2 && p2[1..] == p3;
    assert Join(p3, sep) == parts[3];
    assert Join(p2, sep) == parts[2] + [sep] + parts[3];
    assert Join(p1, sep) == parts[1] + [sep] + (parts[2] + [sep] + parts[3]);
  }

  /** The split-based check accepts exactly the strings of the pattern's shape. */
  lemma IpAddressIffPattern(s: string)
    ensures IsIpAddress(s) <==> MatchesPattern(s)
  {
    if IsIpAddress(s) {
      var p := Split(s, '.');
      JoinSplit(s, '.');
      JoinFour(p, '.');
      assert s == Dotted(p[0], p[1], p[2], p[3]);
    }
    if MatchesPattern(s) {
      var a, b, c, d :|
        IsOctet(a) && IsOctet(b) && IsOctet(c) && IsOctet(d) && s == Dotted(a, b, c, d);
      var p := [a, b, c, d];
      OctetHasNoDot(a);
      OctetHasNoDot(b);
      OctetHasNoDot(c);
      OctetHasNoDot(d);
      JoinFour(p, '.');
      SplitJoin(p, '.');
    }
  }

  /** An accepted address has four octets, each one to three digits of value at most 255. */
  lemma AcceptedOctetsBounded(s: string)
    requires IsIpAddress(s)
    ensures forall i :: 0 <= i < 4 ==>
      var part := Split(s, '.')[i];
      1 <= |part| <= 3 && AllDigits(part) && DecimalValue(part) <= 255
  {
    var p := Split(s, '.');
    forall i | 0 <= i < 4
      ensures 1 <= |p[i]| <= 3 && AllDigits(p[i]) && DecimalValue(p[i]) <= 255
    {
      OctetIffBoundedDigits(p[i]);
    }
  }

  /**
   The arithmetic reading of the pattern: a string is accepted exactly when it
   splits at '.' into four parts, each one to three digits of value at most 255.
   */
  lemma IpAddressIffBoundedParts(s: string)
    ensures IsIpAddress(s) <==>
      var p := Split(s, '.');
      |p| == 4 && forall i :: 0 <= i < 4 ==> 1 <= |p[i]| <= 3 && AllDigits(p[i]) && DecimalValue(p[i]) <= 255
  {
    var p := Split(s, '.');
    forall i | 0 <= i < |p| {
      OctetIffBoundedDigits(p[i]);
    }
  }

  /** An accepted address holds only digits and exactly three dots, 7 to 15 characters in all. */
  lemma AcceptedShape(s: string)
    requires IsIpAddress(s)
    ensures 7 <= |s| <= 15
    ensures forall i :: 0 <= i < |s| ==> IsDigit(s[i]) || s[i] == '.'
    ensures multiset(s)['.'] == 3
  {
    var p := Split(s, '.');
    JoinSplit(s, '.');
    JoinFour(p, '.');
    OctetHasNoDot(p[0]);
    OctetHasNoDot(p[1]);
    OctetHasNoDot(p[2]);
    OctetHasNoDot(p[3]);
    assert s == p[0] + "." + p[1] + "." + p[2] + "." + p[3];
    assert multiset(s) == multiset(p[0]) + multiset(".") + multiset(p[1]) + multiset(".")
      + multiset(p[2]) + multiset(".") + multiset(p[3]);
    assert multiset(".")['.'] == 1;
  }

  /** A string containing anything other than digits and dots (a host name, say) is rejected. */
  lemma HostNameRejected(s: string, i: int)
    requires 0 <= i < |s| && !IsDigit(s[i]) && s[i] != '.'
    ensures !IsIpAddress(s)
  {
    if IsIpAddress(s) {
      AcceptedShape(s);
    }
  }

  /**
   Four digit-only parts joined by dots form an accepted address exactly when
   each part is an octet: "999.1.1.1" and "0001.1.1.1" fail only for their
   first part.
   */
  lemma DigitQuadIffOctets(a: string, b: string, c: string, d: string)
    requires AllDigits(a) && AllDigits(b) && AllDigits(c) && AllDigits(d)
    ensures IsIpAddress(Dotted(a, b, c, d)) <==> IsOctet(a) && IsOctet(b) && IsOctet(c) && IsOctet(d)
  {
    var p := [a, b, c, d];
    JoinFour(p, '.');
    SplitOfDigits(p);
  }

  /** Any number of dots other than three is rejected, so three-part and five-part strings are. */
  lemma WrongDotCountRejected(s: string)
    requires multiset(s)['.'] != 3
    ensures !IsIpAddress(s)
  {
    if IsIpAddress(s) {
      AcceptedShape(s);
    }
  }

  lemma AcceptedExamples()
    ensures IsIpAddress(Dotted("127", "0", "0", "1"))
    ensures IsIpAddress(Dotted("255", "255", "255", "255"))
    ensures IsIpAddress(Dotted("01", "001", "0", "1"))
  {
    DigitQuadIffOctets("127", "0", "0", "1");
    DigitQuadIffOctets("255", "255", "255", "255");
    DigitQuadIffOctets("01", "001", "0", "1");
  }

  /** Each of these fails for its first part only: too large, just too large, four digits. */
  lemma BadOctetExamples()
    ensures !IsIpAddress(Dotted("999", "1", "1", "1"))
    ensures !IsIpAddress(Dotted("256", "1", "1", "1"))
    ensures !IsIpAddress(Dotted("0001", "1", "1", "1"))
  {
    LeadingZerosAccepted();
    DigitQuadIffOctets("999", "1", "1", "1");
    DigitQuadIffOctets("256", "1", "1", "1");
    DigitQuadIffOctets("0001", "1", "1", "1");
  }

  lemma MalformedExamples()
    ensures !IsIpAddress("1.1.1")
    ensures !IsIpAddress("localhost")
    ensures !IsIpAddress("host.example.com")
  {
    var three := ["1", "1", "1"];
    assert three[1..][1..] == ["1"];
    SplitOfDigits(three);
    HostNameRejected("localhost", 0);
    HostNameRejected("host.example.com", 0);
  }

  /** The split of a string built from digit-only pieces is those pieces. */
  lemma SplitOfDigits(parts: seq<string>)
    requires |parts| >= 1
    requires forall i :: 0 <= i < |parts| ==> AllDigits(parts[i])
    ensures Split(Join(parts, '.'), '.') == parts
  {
    assert forall i :: 0 <= i < |parts| ==> '.' !in parts[i];
    SplitJoin(parts, '.');
  }
}
