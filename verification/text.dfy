/** Text as the page tokens and country codes use it: trimming, decimal numbers,
    splitting at a separator. */
module Text {

  import opened Results

  /** White space as Unicode defines it. */
  predicate IsSpace(c: char)
  {
    var u := c as int;
    || 9 <= u <= 13 || u == 0x20 || u == 0x85 || u == 0xA0 || u == 0x1680
    || 0x2000 <= u <= 0x200A || u == 0x2028 || u == 0x2029 || u == 0x202F || u == 0x205F || u == 0x3000
  }

  function TrimStart(s: string): string
  {
    if s != "" && IsSpace(s[0]) then TrimStart(s[1..]) else s
  }

  function TrimEnd(s: string): string
  {
    if s != "" && IsSpace(s[|s| - 1]) then TrimEnd(s[..|s| - 1]) else s
  }

  function Trim(s: string): string
  {
    TrimEnd(TrimStart(s))
  }

  /** The parts before and after the first separator. */
  function SplitOnce(s: string, separator: char): Option<(string, string)>
  {
    if s == "" then None
    else if s[0] == separator then Some(("", s[1..]))
    else
      match SplitOnce(s[1..], separator)
      case None => None
      case Some((before, after)) => Some(([s[0]] + before, after))
  }

  predicate IsDigit(c: char)
  {
    '0' <= c <= '9'
  }

  const USIZE_LIMIT: nat := 0x1_0000_0000_0000_0000

  function DigitsValue(s: string): Option<nat>
  {
    if s == "" then Some(0)
    else
      var last := s[|s| - 1];
      match DigitsValue(s[..|s| - 1])
      case None => None
      case Some(high) => if IsDigit(last) then Some(10 * high + (last as nat - '0' as nat)) else None
  }

  /** A decimal `usize`, with an optional leading plus sign. */
  function ParseUsize(s: string): Option<nat>
  {
    var digits := if s != "" && s[0] == '+' then s[1..] else s;
    if digits == "" then None
    else
      match DigitsValue(digits)
      case None => None
      case Some(n) => if n < USIZE_LIMIT then Some(n) else None
  }

  function DigitChar(d: nat): (c: char)
    requires d < 10
    ensures IsDigit(c) && c as nat == '0' as nat + d
  {
    ('0' as nat + d) as char
  }

  function PrintNat(n: nat): (s: string)
    ensures s != "" && IsDigit(s[0]) && IsDigit(s[|s| - 1])
    ensures forall i :: 0 <= i < |s| ==> IsDigit(s[i])
  {
    if n < 10 then [DigitChar(n)] else PrintNat(n / 10) + [DigitChar(n % 10)]
  }

  lemma {:induction false} PrintedValue(n: nat)
    ensures DigitsValue(PrintNat(n)) == Some(n)
  {
    if n < 10 {
      assert PrintNat(n)[..0] == "";
    } else {
      PrintedValue(n / 10);
      assert PrintNat(n)[..|PrintNat(n)| - 1] == PrintNat(n / 10);
    }
  }

  lemma PrintedParses(n: nat)
    requires n < USIZE_LIMIT
    ensures ParseUsize(PrintNat(n)) == Some(n)
  {
    PrintedValue(n);
  }

  lemma {:induction false} SplitOnceAtFirst(before: string, separator: char, after: string)
    requires separator !in before
    ensures SplitOnce(before + [separator] + after, separator) == Some((before, after))
  {
    var s := before + [separator] + after;
    if before == "" {
      assert s[1..] == after;
    } else {
      SplitOnceAtFirst(before[1..], separator, after);
      assert s[1..] == before[1..] + [separator] + after;
      assert before == [s[0]] + before[1..];
    }
  }

  lemma TrimKeeps(s: string)
    requires s != "" && !IsSpace(s[0]) && !IsSpace(s[|s| - 1])
    ensures Trim(s) == s
  {
  }

  predicate AllSpace(s: string)
  {
    forall i :: 0 <= i < |s| ==> IsSpace(s[i])
  }

  /** Nothing to trim at either end. */
  predicate Trimmed(s: string)
  {
    s != "" ==> !IsSpace(s[0]) && !IsSpace(s[|s| - 1])
  }

  lemma {:induction false} TrimStartDrops(before: string, s: string)
    requires AllSpace(before) && (s != "" ==> !IsSpace(s[0]))
    ensures TrimStart(before + s) == s
  {
    if before == "" {
      assert before + s == s;
    } else {
      assert (before + s)[1..] == before[1..] + s;
      TrimStartDrops(before[1..], s);
    }
  }

  lemma {:induction false} TrimEndDrops(s: string, after: string)
    requires AllSpace(after) && Trimmed(s)
    ensures TrimEnd(s + after) == s
  {
    if after == "" {
      assert s + after == s;
    } else {
      assert (s + after)[..|s + after| - 1] == s + after[..|after| - 1];
      TrimEndDrops(s, after[..|after| - 1]);
    }
  }

  lemma {:induction false} TrimStartOfSpace(s: string)
    requires AllSpace(s)
    ensures TrimStart(s) == ""
  {
    if s == "" {
    } else {
      TrimStartOfSpace(s[1..]);
    }
  }

  /** Trimming takes away the white space around a text, and nothing else. */
  lemma TrimMeans(before: string, text: string, after: string)
    requires AllSpace(before) && AllSpace(after) && Trimmed(text)
    ensures Trim(before + text + after) == text
  {
    if text == "" {
      TrimStartOfSpace(before + text + after);
    } else {
      assert before + text + after == before + (text + after);
      TrimStartDrops(before, text + after);
      TrimEndDrops(text, after);
    }
  }
}
