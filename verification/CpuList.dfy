/** CPU lists on the command line: the scanner of `helper.h`, which works in place on the argument
    string, and what it recognises. */
module CpuList {
  import opened Decimal

  /** Whether the scanner reports `cpu` for the text `s`, which has no terminator inside. A number
      followed by anything but a comma, a dash or the end is skipped without being compared, and
      whatever follows a range is not looked at. */
  predicate Scan(s: string, cpu: int)
    decreases |s|
  {
    var k := Digits(s);
    if k == 0 then false
    else
      var number, rest := DecValue(s[..k]), s[k..];
      if rest == [] then cpu == number
      else if rest[0] == ',' then cpu == number || Scan(rest[1..], cpu)
      else if rest[0] == '-' then
        var l := Digits(rest[1..]);
        if l == 0 then false
        else
          var end := DecValue(rest[1..][..l]);
          number <= cpu <= end || Scan(After(rest[1..], l), cpu)
      else Scan(rest[1..], cpu)
  }

  /** What is left behind position `k` and one more character. */
  function After(s: string, k: nat): (r: string)
    requires k <= |s|
    ensures k > 0 || s == [] ==> |r| <= |s|
  {
    if k < |s| then s[k + 1..] else []
  }

  /** The C string at the start of a buffer. */
  function Text(buf: string): (s: string)
    requires '\0' in buf
    ensures |s| < |buf| && '\0' !in s && buf[..|s|] == s && buf[|s|] == '\0'
  {
    if buf[0] == '\0' then "" else [buf[0]] + Text(buf[1..])
  }

  method StrLen(list: array<char>) returns (len: nat)
    requires '\0' in list[..]
    ensures len == |Text(list[..])|
  {
    len := 0;
    while list[len] != '\0'
      invariant len < list.Length && '\0' in list[len..] && |Text(list[..])| == len + |Text(list[len..])|
      decreases list.Length - len
    {
      assert list[len..][1..] == list[len + 1..];
      len := len + 1;
    }
  }

  /** `get_digit`: the number at `list + at`, of at most `len` characters. A terminator is written
      behind it for `sscanf` and taken back afterwards. */
  method GetDigit(list: array<char>, at: nat, len: nat) returns (stop: nat, digit: nat)
    requires at + len < list.Length
    modifies list
    ensures list[..] == old(list[..])
    ensures stop == Digits(list[at..at + len])
    ensures stop > 0 ==> digit == DecValue(list[at..at + len][..stop])
  {
    stop, digit := 0, 0;
    while stop < len && IsDigit(list[at + stop])
      modifies {}
      invariant stop <= len && Digits(list[at..at + len]) == stop + Digits(list[at + stop..at + len])
    {
      assert list[at + stop..at + len][1..] == list[at + stop + 1..at + len];
      stop := stop + 1;
    }
    if stop == 0 {
      return;
    }
    var backup := list[at + stop];
    list[at + stop] := '\0';
    assert list[at..at + stop] == old(list[at..at + stop]);
    assert list[at..at + stop] == old(list[at..at + len])[..stop];
    digit := DecValue(list[at..at + stop]);
    list[at + stop] := backup;
  }

  /** The rest of the argument from position `i`, as the buffer holds it. */
  lemma TextFrom(buf: string, i: nat)
    requires '\0' in buf && i <= |Text(buf)|
    ensures buf[i..i + (|Text(buf)| - i)] == Text(buf)[i..]
    ensures buf[i] == '\0' <==> i == |Text(buf)|
    ensures i < |Text(buf)| ==> buf[i] == Text(buf)[i]
  {
  }

  lemma TextAfter(text: string, i: nat, k: nat)
    requires i + k <= |text|
    ensures text[i..][k..] == text[i + k..]
  {
  }

  /** What is left from position `i` on; past the end there is nothing to find. */
  predicate ScanFrom(text: string, i: nat, cpu: int) {
    i <= |text| && Scan(text[i..], cpu)
  }

  /** A position in the text reads like the start of a list. */
  lemma ScanNumber(text: string, i: nat, cpu: int)
    requires i < |text|
    ensures var k := Digits(text[i..]);
            && i + k <= |text|
            && (k == 0 ==> !ScanFrom(text, i, cpu))
            && (k > 0 && i + k == |text| ==> ScanFrom(text, i, cpu) == (cpu == DecValue(text[i..][..k])))
            && (k > 0 && i + k < |text| && text[i + k] == ',' ==>
                  ScanFrom(text, i, cpu) == (cpu == DecValue(text[i..][..k]) || ScanFrom(text, i + k + 1, cpu)))
            && (k > 0 && i + k < |text| && text[i + k] != ',' && text[i + k] != '-' ==>
                  ScanFrom(text, i, cpu) == ScanFrom(text, i + k + 1, cpu))
  {
    hide Digits, DecValue;
    var k := Digits(text[i..]);
    TextAfter(text, i, k);
    if i + k < |text| {
      TextAfter(text, i + k, 1);
    }
  }

  lemma ScanRange(text: string, i: nat, cpu: int)
    requires i < |text|
    requires var k := Digits(text[i..]); k > 0 && i + k < |text| && text[i + k] == '-'
    ensures var k := Digits(text[i..]);
            var j := i + k + 1;
            var l := Digits(text[j..]);
            && j + l <= |text|
            && (l == 0 ==> !ScanFrom(text, i, cpu))
            && (l > 0 ==> ScanFrom(text, i, cpu)
                          == (DecValue(text[i..][..k]) <= cpu <= DecValue(text[j..][..l])
                            || ScanFrom(text, j + l + 1, cpu)))
  {
    hide Digits, DecValue;
    var k := Digits(text[i..]);
    var j := i + k + 1;
    var l := Digits(text[j..]);
    TextAfter(text, i, k);
    TextAfter(text, i + k, 1);
    if j + l < |text| {
      TextAfter(text, j, l + 1);
    } else {
      ScanStops("", cpu);
    }
  }

  /** `get_digit` at position `at` of the argument. */
  method NumberAt(list: array<char>, at: nat, len: nat) returns (stop: nat, digit: nat)
    requires '\0' in list[..] && at <= len == |Text(list[..])|
    modifies list
    ensures list[..] == old(list[..])
    ensures stop == Digits(Text(list[..])[at..]) && at + stop <= len
    ensures stop > 0 ==> digit == DecValue(Text(list[..])[at..][..stop])
  {
    hide Digits, DecValue, Text;
    TextFrom(list[..], at);
    assert list[..][at..at + (len - at)] == list[at..at + (len - at)];
    stop, digit := GetDigit(list, at, len - at);
  }

  /** `cpu_in_cpulist`: the answer of `Scan`, with the argument string unchanged. */
  method CpuInCpulist(list: array<char>, cpuid: int) returns (found: bool)
    requires '\0' in list[..]
    modifies list
    ensures list[..] == old(list[..])
    ensures found == Scan(Text(list[..]), cpuid)
  {
    hide Digits, DecValue, Text, Scan, ScanFrom;
    ghost var buf, text := list[..], Text(list[..]);
    var listLen := StrLen(list);
    var listIndex := 0;
    ScanEnds(text, cpuid, 0);
    while listIndex < listLen
      invariant list[..] == buf
      invariant Scan(text, cpuid) == ScanFrom(text, listIndex, cpuid)
      decreases listLen - listIndex
    {
      ghost var start := listIndex;
      ScanNumber(text, start, cpuid);
      var digitLen, digit := NumberAt(list, listIndex, listLen);
      if digitLen == 0 {
        return false;
      }
      listIndex := listIndex + digitLen;
      TextFrom(buf, listIndex);
      ScanEnds(text, cpuid, listIndex + 1);
      assert list[..][listIndex] == list[listIndex];
      match list[listIndex] {
        case ',' =>
          if cpuid == digit {
            return true;
          }
        case '\0' =>
          if cpuid == digit {
            return true;
          }
        case '-' =>
          ScanRange(text, start, cpuid);
          listIndex := listIndex + 1;
          var endLen, digitEnd := NumberAt(list, listIndex, listLen);
          if endLen == 0 {
            return false;
          }
          listIndex := listIndex + endLen;
          if cpuid >= digit && cpuid <= digitEnd {
            return true;
          }
        case _ =>
      }
      listIndex := listIndex + 1;
    }
    ScanEnds(text, cpuid, listIndex);
    found := false;
  }

  lemma ScanEnds(text: string, cpu: int, i: nat)
    ensures ScanFrom(text, 0, cpu) == Scan(text, cpu)
    ensures i >= |text| ==> !ScanFrom(text, i, cpu)
  {
    assert text[0..] == text;
  }

  // ----- What the scanner makes of any text -----

  /** A number in front of a text: it is compared if the text ends behind it or goes on with a comma,
      skipped if something else comes, and a range without an end stops the scan. */
  lemma ScanOne(a: string, tail: string, cpu: int)
    requires a != "" && AllDigits(a) && !StartsWithDigit(tail)
    ensures Scan(a + tail, cpu) <==>
            if tail == "" then cpu == DecValue(a)
            else if tail[0] == ',' then cpu == DecValue(a) || Scan(tail[1..], cpu)
            else if tail[0] == '-' && !StartsWithDigit(tail[1..]) then false
            else if tail[0] == '-' then Scan(a + tail, cpu)
            else Scan(tail[1..], cpu)
  {
    hide Digits, DecValue;
    DigitsIs(a, tail);
    var s := a + tail;
    assert s[..|a|] == a && s[|a|..] == tail;
    if tail != "" && !StartsWithDigit(tail[1..]) {
      DigitsIs("", tail[1..]);
      assert "" + tail[1..] == tail[1..];
    }
  }

  /** A range in front of a text; the character behind it is not looked at. */
  lemma ScanSpan(a: string, b: string, tail: string, cpu: int)
    requires a != "" && AllDigits(a) && b != "" && AllDigits(b) && !StartsWithDigit(tail)
    ensures Scan(a + "-" + b + tail, cpu)
            <==> DecValue(a) <= cpu <= DecValue(b) || (tail != "" && Scan(tail[1..], cpu))
  {
    hide Digits, DecValue;
    var rest := ['-'] + (b + tail);
    DigitsIs(a, rest);
    DigitsIs(b, tail);
    var s := a + rest;
    assert a + "-" + b + tail == s;
    assert s[..|a|] == a && s[|a|..] == rest && rest[1..] == b + tail;
    assert rest[1..][..|b|] == b;
    AfterIs(b, tail);
    ScanStops("", cpu);
  }

  /** Nothing is found where no number starts. */
  lemma ScanStops(r: string, cpu: int)
    requires !StartsWithDigit(r)
    ensures !Scan(r, cpu)
  {
  }

  // ----- The lists of cpuset(7) -----

  /** A CPU number or an inclusive range of them. */
  datatype Item = One(cpu: nat) | Span(first: nat, last: nat) {
    predicate Has(c: int) {
      match this
      case One(n) => c == n
      case Span(a, b) => a <= c <= b
    }

    function Text(): string {
      match this
      case One(n) => Dec(n)
      case Span(a, b) => Dec(a) + "-" + Dec(b)
    }
  }

  /** The List format: items separated by commas. */
  function ListText(items: seq<Item>): string {
    if items == [] then ""
    else if |items| == 1 then items[0].Text()
    else items[0].Text() + "," + ListText(items[1..])
  }

  lemma AfterIs(s: string, tail: string)
    ensures After(s + tail, |s|) == if tail == "" then "" else tail[1..]
  {
  }

  /** On every list in that format the scanner reports exactly the members of the union. */
  lemma {:induction false} ScanIsUnion(items: seq<Item>, cpu: int)
    ensures Scan(ListText(items), cpu) <==> exists i :: 0 <= i < |items| && items[i].Has(cpu)
  {
    if items == [] {
      ScanStops("", cpu);
    } else {
      var tail := if |items| == 1 then "" else "," + ListText(items[1..]);
      ScanItem(items[0], tail, cpu);
      if |items| == 1 {
        assert items[0].Text() + tail == items[0].Text();
      } else {
        assert items[0].Text() + tail == ListText(items) && tail[1..] == ListText(items[1..]);
        ScanIsUnion(items[1..], cpu);
      }
      UnionStep(items, cpu);
    }
  }

  lemma ScanItem(item: Item, tail: string, cpu: int)
    requires tail == "" || tail[0] == ','
    ensures Scan(item.Text() + tail, cpu) == (item.Has(cpu) || (tail != "" && Scan(tail[1..], cpu)))
  {
    hide Scan, Dec, DecValue;
    match item
    case One(n) =>
      DecIs(n);
      ScanOne(Dec(n), tail, cpu);
    case Span(a, b) =>
      DecIs(a);
      DecIs(b);
      ScanSpan(Dec(a), Dec(b), tail, cpu);
  }

  lemma UnionStep(items: seq<Item>, cpu: int)
    requires items != []
    ensures (exists i :: 0 <= i < |items| && items[i].Has(cpu))
            <==> items[0].Has(cpu) || (exists i :: 0 <= i < |items[1..]| && items[1..][i].Has(cpu))
  {
    if i :| 0 <= i < |items| && items[i].Has(cpu) {
      if i > 0 {
        assert items[1..][i - 1].Has(cpu);
      }
    }
    if i :| 0 <= i < |items[1..]| && items[1..][i].Has(cpu) {
      assert items[i + 1].Has(cpu);
    }
  }
}
