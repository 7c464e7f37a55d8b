/** `get_core_count`: the number of online CPUs read from the kernel's
    CPU-list file ("0-3,5,7-9\n"). The file's contents are a parameter.
    The parse works on the NUL-terminated buffer with the same `strpbrk`
    and `sscanf("%d")` steps as the C loop; the loop takes the number
    scanner as a parameter, and `ScanInt` is the scanner `get_core_count`
    uses. The parse is checked against a reference: the text a list of
    CPUs and CPU ranges formats to, and the number of CPUs that list names. */
module CpuList {
  import opened Base

  /** `sizeof(online)`: one byte is kept for the terminating NUL. */
  const ONLINE_SZ: nat := 512

  /** The characters `strpbrk(prog, ",-")` and `strpbrk(prog, ",")` stop at. */
  const SEPS: set<char> := {',', '-'}
  const COMMA: set<char> := {','}
  const NUL: set<char> := {'\0'}

  predicate IsDigit(c: char) {
    '0' <= c <= '9'
  }

  /** `isspace` in the C locale. */
  predicate IsSpace(c: char) {
    c == ' ' || c == '\t' || c == '\n' || c == '\r' || c as int == 11 || c as int == 12
  }

  /** `strpbrk(&s[i], cs)`: the index of the first character at or
      after i that is in cs. */
  function FindFrom(s: seq<char>, i: nat, cs: set<char>): (r: Option<nat>)
    requires i <= |s|
    ensures r.Some? ==> i <= r.value < |s| && s[r.value] in cs
    decreases |s| - i
  {
    if i == |s| then None
    else if s[i] in cs then Some(i)
    else FindFrom(s, i + 1, cs)
  }

  /** The string a `char *` to the start of the buffer denotes: the buffer
      up to its first NUL. */
  function CString(buf: seq<char>): (r: seq<char>)
    ensures |r| <= |buf| && r == buf[..|r|]
    ensures |r| < |buf| ==> buf[|r|] == '\0'
  {
    var t := FindFrom(buf, 0, NUL);
    if t.None? then buf else buf[..t.value]
  }

  /** The index of the first non-space character at or after i. */
  function SkipSpace(s: seq<char>, i: nat): (r: nat)
    requires i <= |s|
    ensures i <= r <= |s|
    decreases |s| - i
  {
    if i < |s| && IsSpace(s[i]) then SkipSpace(s, i + 1) else i
  }

  /** The end of the run of digits starting at i. */
  function DigitEnd(s: seq<char>, i: nat): (r: nat)
    requires i <= |s|
    ensures i <= r <= |s|
    decreases |s| - i
  {
    if i < |s| && IsDigit(s[i]) then DigitEnd(s, i + 1) else i
  }

  /** The decimal value of a string of digits. */
  function Value(ds: seq<char>): nat {
    if ds == [] then 0
    else Value(ds[..|ds| - 1]) * 10 + if IsDigit(ds[|ds| - 1]) then ds[|ds| - 1] as int - '0' as int else 0
  }

  /** `sscanf(s, "%d", &v) == 1`: leading white space, an optional sign,
      then at least one digit; the value, or None when no digit follows. */
  function ScanInt(s: seq<char>): (r: Option<int>)
    ensures r.Some? ==> s != []
  {
    var i := SkipSpace(s, 0);
    var signed := i < |s| && (s[i] == '-' || s[i] == '+');
    var j := if signed then i + 1 else i;
    var k := DigitEnd(s, j);
    if k == j then None
    else
      var v: int := Value(s[j..k]);
      Some(if signed && s[i] == '-' then -v else v)
  }

  /** The parse loop of `get_core_count`: p is the text from `prog` on,
      c the running count, begin/end the current values of
      `begin_cpu`/`end_cpu`; `scan` is the `sscanf("%d")` step. A ','
      counts the item before it without reading it; a '-' hands over to
      `RangeFrom`. With no separator left, a number in p counts 1. */
  function CountFrom(scan: seq<char> -> Option<int>, p: seq<char>, c: int, begin: int, end: int): int
    decreases |p|, 1
  {
    var t := FindFrom(p, 0, SEPS);
    if t.None? then (if scan(p).Some? then c + 1 else c)
    else if p[t.value] == ',' then CountFrom(scan, p[t.value + 1..], c + 1, begin, end)
    else RangeFrom(scan, p, t.value, c, begin, end)
  }

  /** The '-' branch, the '-' at index k of p: it becomes NUL, so the
      range start is read from p[..k]; the next ',' (if any) becomes NUL,
      so the range end is read up to it; end - begin + 1 is added. A failed
      `sscanf` leaves the variable as it was. With no ',' behind the range
      `prog` becomes null and the count is final. */
  function RangeFrom(scan: seq<char> -> Option<int>, p: seq<char>, k: nat, c: int, begin: int, end: int): int
    requires k < |p|
    decreases |p|, 0
  {
    var b := scan(p[..k]).GetOr(begin);
    var t := FindFrom(p, k + 1, COMMA);
    if t.None? then c + (scan(p[k + 1..]).GetOr(end) - b + 1)
    else
      var e := scan(p[k + 1..t.value]).GetOr(end);
      CountFrom(scan, p[t.value + 1..], c + (e - b + 1), b, e)
  }

  /** `get_core_count`. An `open` failure and a `read` of fewer than one
      byte give 0. At most 511 bytes are read; the count is parsed from
      them. `begin0`/`end0` stand for the uninitialised `begin_cpu` and
      `end_cpu`. */
  function GetCoreCount(opens: bool, readFails: bool, contents: seq<char>, begin0: int, end0: int): (r: int)
    ensures !opens || readFails || contents == [] ==> r == 0
  {
    if !opens then 0
    else
      var charsRead := if readFails then -1 else if |contents| < ONLINE_SZ then |contents| else ONLINE_SZ - 1;
      if charsRead < 1 then 0
      else CountFrom(ScanInt, CString(contents[..charsRead]), 0, begin0, end0)
  }

  // ---------------------------------------------------------------------
  // Reference: CPU lists as the kernel writes them
  // ---------------------------------------------------------------------

  /** One element of a CPU list: a single CPU or a range lo-hi. */
  datatype Item = Cpu(n: nat) | Span(lo: nat, hi: nat)

  /** The decimal digits of n, most significant first. */
  function NatDigits(n: nat): (r: seq<char>)
    ensures |r| > 0
    ensures forall j :: 0 <= j < |r| ==> IsDigit(r[j])
  {
    var last := ('0' as int + n % 10) as char;
    if n < 10 then [last] else NatDigits(n / 10) + [last]
  }

  function ItemText(it: Item): string {
    match it
    case Cpu(n) => NatDigits(n)
    case Span(lo, hi) => NatDigits(lo) + "-" + NatDigits(hi)
  }

  /** The items joined by commas. */
  function Format(items: seq<Item>): string {
    if items == [] then ""
    else if |items| == 1 then ItemText(items[0])
    else ItemText(items[0]) + "," + Format(items[1..])
  }

  /** The number of CPUs an item stands for, as the range arithmetic of
      `get_core_count` counts it. */
  function Weight(it: Item): int {
    match it
    case Cpu(_) => 1
    case Span(lo, hi) => hi - lo + 1
  }

  function Total(items: seq<Item>): int {
    if items == [] then 0 else Weight(items[0]) + Total(items[1..])
  }

  predicate AllSpace(s: seq<char>) {
    forall j :: 0 <= j < |s| ==> IsSpace(s[j])
  }

  /** A non-empty run of digits. */
  predicate Numeral(d: seq<char>) {
    |d| > 0 && forall j :: 0 <= j < |d| ==> IsDigit(d[j])
  }

  /** What the parse needs of its number scanner: a numeral alone or
      followed by white space reads as its value; white space alone reads
      as nothing. */
  ghost predicate ScansNumerals(scan: seq<char> -> Option<int>) {
    && (forall d {:trigger Numeral(d)} :: Numeral(d) ==> scan(d) == Some(Value(d)))
    && (forall d, t {:trigger Numeral(d), AllSpace(t)} :: Numeral(d) && AllSpace(t) ==> scan(d + t) == Some(Value(d)))
    && (forall t {:trigger AllSpace(t)} :: AllSpace(t) ==> scan(t) == None)
  }

  // ---------------------------------------------------------------------
  // The scanner
  // ---------------------------------------------------------------------

  /** Reading back the digits of n gives n. */
  lemma {:induction false} ValueOfDigits(n: nat)
    ensures Value(NatDigits(n)) == n
  {
    var ds := NatDigits(n);
    if n >= 10 {
      ValueOfDigits(n / 10);
      assert ds[..|ds| - 1] == NatDigits(n / 10);
    }
  }

  /** A digit run ends where the digits of a do when the next character
      is not a digit. */
  lemma {:induction false} DigitEndOf(a: seq<char>, rest: seq<char>, j: nat)
    requires forall i :: 0 <= i < |a| ==> IsDigit(a[i])
    requires rest == [] || !IsDigit(rest[0])
    requires j <= |a|
    ensures DigitEnd(a + rest, j) == |a|
    decreases |a| - j
  {
    if j < |a| {
      DigitEndOf(a, rest, j + 1);
    }
  }

  /** `sscanf("%d")` reads a numeral followed by a non-digit or nothing
      as its decimal value. */
  lemma ScanNumeral(d: seq<char>, rest: seq<char>)
    requires Numeral(d)
    requires rest == [] || !IsDigit(rest[0])
    ensures ScanInt(d + rest) == Some(Value(d))
  {
    var s := d + rest;
    assert IsDigit(s[0]);
    assert SkipSpace(s, 0) == 0;
    DigitEndOf(d, rest, 0);
    assert s[0..|d|] == d;
  }

  lemma {:induction false} SkipAllSpace(s: seq<char>, i: nat)
    requires AllSpace(s) && i <= |s|
    ensures SkipSpace(s, i) == |s|
    decreases |s| - i
  {
    if i < |s| {
      SkipAllSpace(s, i + 1);
    }
  }

  /** `ScanInt` is a scanner the parse can rely on. */
  lemma ScanIntScansNumerals()
    ensures ScansNumerals(ScanInt)
  {
    forall d | Numeral(d)
      ensures ScanInt(d) == Some(Value(d))
    {
      ScanNumeral(d, []);
      assert d + [] == d;
    }
    forall d, t | Numeral(d) && AllSpace(t)
      ensures ScanInt(d + t) == Some(Value(d))
    {
      ScanNumeral(d, t);
    }
    forall t | AllSpace(t)
      ensures ScanInt(t) == None
    {
      SkipAllSpace(t, 0);
    }
  }

  // ---------------------------------------------------------------------
  // Steps of the loop
  // ---------------------------------------------------------------------

  /** `strpbrk` stops at the first character of the set. */
  lemma {:induction false} FindFromAt(s: seq<char>, i: nat, k: nat, cs: set<char>)
    requires i <= k < |s| && s[k] in cs
    requires forall j :: i <= j < k ==> s[j] !in cs
    ensures FindFrom(s, i, cs) == Some(k)
    decreases k - i
  {
    if i < k {
      FindFromAt(s, i + 1, k, cs);
    }
  }

  /** `strpbrk` returns null when no character of the set is left. */
  lemma {:induction false} FindFromNone(s: seq<char>, i: nat, cs: set<char>)
    requires i <= |s|
    requires forall j :: i <= j < |s| ==> s[j] !in cs
    ensures FindFrom(s, i, cs) == None
    decreases |s| - i
  {
    if i < |s| {
      FindFromNone(s, i + 1, cs);
    }
  }

  /** A buffer without NUL is its own C string. */
  lemma CStringWhole(buf: seq<char>)
    requires forall j :: 0 <= j < |buf| ==> buf[j] != '\0'
    ensures CString(buf) == buf
  {
    FindFromNone(buf, 0, NUL);
  }

  /** No character of the set cs occurs in s. */
  predicate Avoids(s: seq<char>, cs: set<char>) {
    forall j :: 0 <= j < |s| ==> s[j] !in cs
  }

  /** Where the pieces of a + [x] + rest sit. */
  lemma Split(a: seq<char>, x: char, rest: seq<char>, cs: set<char>)
    requires Avoids(a, cs)
    ensures var p := a + [x] + rest;
            && |a| < |p| && p[|a|] == x && p[..|a|] == a && p[|a| + 1..] == rest
            && (forall j :: 0 <= j < |a| ==> p[j] !in cs)
  {
    var p := a + [x] + rest;
    assert p[..|a|] == a;
    assert p[|a| + 1..] == rest;
  }

  /** A ',' after text without separators: the item is counted unread. */
  lemma CommaStep(scan: seq<char> -> Option<int>, d: seq<char>, rest: seq<char>, c: int, b: int, e: int)
    requires Avoids(d, SEPS)
    ensures CountFrom(scan, d + [','] + rest, c, b, e) == CountFrom(scan, rest, c + 1, b, e)
  {
    Split(d, ',', rest, SEPS);
    FindFromAt(d + [','] + rest, 0, |d|, SEPS);
  }

  /** No separator left: a number counts one. */
  lemma LastStep(scan: seq<char> -> Option<int>, p: seq<char>, c: int, b: int, e: int)
    requires Avoids(p, SEPS)
    ensures CountFrom(scan, p, c, b, e) == if scan(p).Some? then c + 1 else c
  {
    FindFromNone(p, 0, SEPS);
  }

  /** A range dl-dh followed by a ',': `begin_cpu`/`end_cpu` take the
      values lo and hi read from dl and dh, and the count c becomes c'. */
  lemma SpanComma(scan: seq<char> -> Option<int>, dl: seq<char>, dh: seq<char>, rest: seq<char>,
                  lo: int, hi: int, c: int, c': int, b: int, e: int)
    requires Avoids(dl, SEPS) && Avoids(dh, COMMA)
    requires scan(dl) == Some(lo) && scan(dh) == Some(hi)
    requires c' == c + (hi - lo + 1)
    ensures CountFrom(scan, dl + "-" + dh + [','] + rest, c, b, e) == CountFrom(scan, rest, c', lo, hi)
  {
    var q := dh + [','] + rest;
    var p := dl + ['-'] + q;
    assert dl + "-" + dh + [','] + rest == p;
    Split(dl, '-', q, SEPS);
    FindFromAt(p, 0, |dl|, SEPS);
    Split(dh, ',', rest, COMMA);
    var k, k2 := |dl|, |dl| + 1 + |dh|;
    assert p[k + 1..] == q;
    forall j | k + 1 <= j < k2
      ensures p[j] !in COMMA
    {
      assert p[j] == q[j - k - 1];
    }
    assert p[k2] == ',';
    FindFromAt(p, k + 1, k2, COMMA);
    assert p[k + 1..k2] == dh;
    assert p[k2 + 1..] == rest;
  }

  /** A range dl-dh with no ',' behind it: the count c becomes c'. */
  lemma SpanEnd(scan: seq<char> -> Option<int>, dl: seq<char>, q: seq<char>, lo: int, hi: int, c: int, c': int, b: int, e: int)
    requires Avoids(dl, SEPS) && Avoids(q, COMMA)
    requires scan(dl) == Some(lo) && scan(q) == Some(hi)
    requires c' == c + (hi - lo + 1)
    ensures CountFrom(scan, dl + ['-'] + q, c, b, e) == c'
  {
    var p := dl + ['-'] + q;
    Split(dl, '-', q, SEPS);
    FindFromAt(p, 0, |dl|, SEPS);
    forall j | |dl| + 1 <= j < |p|
      ensures p[j] !in COMMA
    {
      assert p[j] == q[j - |dl| - 1];
    }
    FindFromNone(p, |dl| + 1, COMMA);
  }

  // ---------------------------------------------------------------------
  // The count of a formatted list
  // ---------------------------------------------------------------------

  lemma NatNumeral(n: nat)
    ensures Numeral(NatDigits(n)) && Value(NatDigits(n)) == n
  {
    ValueOfDigits(n);
  }

  /** Digits and white space contain no separator. */
  lemma NumeralAvoids(d: seq<char>)
    requires Numeral(d)
    ensures Avoids(d, SEPS) && Avoids(d, COMMA)
  {
  }

  lemma TextAvoids(d: seq<char>, t: seq<char>)
    requires Numeral(d) && AllSpace(t)
    ensures Avoids(d + t, SEPS) && Avoids(d + t, COMMA)
  {
    forall j | 0 <= j < |d + t|
      ensures (d + t)[j] !in SEPS
    {
      if j >= |d| {
        assert (d + t)[j] == t[j - |d|];
      }
    }
  }

  /** A scanner that reads numerals reads the digits of n as n, alone or
      followed by white space. */
  lemma ScanNat(scan: seq<char> -> Option<int>, n: nat, tail: seq<char>)
    requires ScansNumerals(scan) && AllSpace(tail)
    ensures Numeral(NatDigits(n)) && Avoids(NatDigits(n), SEPS) && Avoids(NatDigits(n), COMMA)
    ensures Avoids(NatDigits(n) + tail, SEPS) && Avoids(NatDigits(n) + tail, COMMA)
    ensures scan(NatDigits(n)) == Some(n) && scan(NatDigits(n) + tail) == Some(n)
  {
    NatNumeral(n);
    NumeralAvoids(NatDigits(n));
    TextAvoids(NatDigits(n), tail);
  }

  /** The last item of the list, followed only by white space, adds its
      weight and ends the count. */
  lemma ItemLast(scan: seq<char> -> Option<int>, it: Item, tail: seq<char>, c: int, b: int, e: int)
    requires ScansNumerals(scan) && AllSpace(tail)
    ensures CountFrom(scan, ItemText(it) + tail, c, b, e) == c + Weight(it)
  {
    match it
    case Cpu(n) =>
      ScanNat(scan, n, tail);
      LastStep(scan, NatDigits(n) + tail, c, b, e);
    case Span(lo, hi) =>
      ScanNat(scan, lo, []);
      ScanNat(scan, hi, tail);
      assert ItemText(it) + tail == NatDigits(lo) + ['-'] + (NatDigits(hi) + tail);
      SpanEnd(scan, NatDigits(lo), NatDigits(hi) + tail, lo, hi, c, c + Weight(it), b, e);
  }

  /** The values `begin_cpu`/`end_cpu` hold after an item: a range sets
      them, a single CPU leaves them. */
  function AfterItem(it: Item, b: int, e: int): (int, int) {
    match it
    case Cpu(_) => (b, e)
    case Span(lo, hi) => (lo, hi)
  }

  /** An item followed by a ',' adds its weight and moves `prog` past the
      ','. */
  lemma ItemThenComma(scan: seq<char> -> Option<int>, it: Item, rest: seq<char>, c: int, b: int, e: int)
    requires ScansNumerals(scan)
    ensures CountFrom(scan, ItemText(it) + [','] + rest, c, b, e)
         == CountFrom(scan, rest, c + Weight(it), AfterItem(it, b, e).0, AfterItem(it, b, e).1)
  {
    match it
    case Cpu(n) =>
      ScanNat(scan, n, []);
      CommaStep(scan, NatDigits(n), rest, c, b, e);
    case Span(lo, hi) =>
      ScanNat(scan, lo, []);
      ScanNat(scan, hi, []);
      SpanComma(scan, NatDigits(lo), NatDigits(hi), rest, lo, hi, c, c + Weight(it), b, e);
  }

  /** Only white space left: nothing more is counted. */
  lemma SpaceLast(scan: seq<char> -> Option<int>, tail: seq<char>, c: int, b: int, e: int)
    requires ScansNumerals(scan) && AllSpace(tail)
    ensures CountFrom(scan, tail, c, b, e) == c
  {
    LastStep(scan, tail, c, b, e);
  }

  /** The text of a list of several items: the first item, a ',', the rest. */
  lemma FormatCons(items: seq<Item>, tail: seq<char>)
    requires |items| > 1
    ensures Format(items) + tail == ItemText(items[0]) + [','] + (Format(items[1..]) + tail)
  {
  }

  /** One item and a ',' in front of a text whose count is known: the
      item's weight is added to it. */
  lemma ConsStep(scan: seq<char> -> Option<int>, it: Item, p: seq<char>, r: seq<char>,
                 c: int, b: int, e: int, c': int, b': int, e': int, t: int)
    requires ScansNumerals(scan) && p == ItemText(it) + [','] + r
    requires c' == c + Weight(it) && (b', e') == AfterItem(it, b, e)
    requires CountFrom(scan, r, c', b', e') == c' + t
    ensures CountFrom(scan, p, c, b, e) == c + Weight(it) + t
  {
    ItemThenComma(scan, it, r, c, b, e);
  }

  /** The parse loop counts the CPUs of any formatted list followed by
      white space (the kernel ends the line with "\n"), whatever the
      values of `begin_cpu` and `end_cpu` when it starts. */
  lemma {:induction false} CountFormat(scan: seq<char> -> Option<int>, items: seq<Item>, tail: seq<char>, c: int, b: int, e: int)
    requires ScansNumerals(scan) && AllSpace(tail)
    ensures CountFrom(scan, Format(items) + tail, c, b, e) == c + Total(items)
    decreases |items|
  {
    if items == [] {
      assert Format(items) + tail == tail;
      SpaceLast(scan, tail, c, b, e);
    } else if |items| == 1 {
      assert items[1..] == [];
      ItemLast(scan, items[0], tail, c, b, e);
    } else {
      var it, rest := items[0], items[1..];
      var c', b', e' := c + Weight(it), AfterItem(it, b, e).0, AfterItem(it, b, e).1;
      CountFormat(scan, rest, tail, c', b', e');
      FormatCons(items, tail);
      ConsStep(scan, it, Format(items) + tail, Format(rest) + tail, c, b, e, c', b', e', Total(rest));
    }
  }

  /** The text a list formats to uses no character outside digits, '-'
      and ','. */
  lemma {:induction false} FormatChars(items: seq<Item>)
    ensures forall i :: 0 <= i < |Format(items)| ==>
              IsDigit(Format(items)[i]) || Format(items)[i] == '-' || Format(items)[i] == ','
    ensures items != [] ==> |Format(items)| > 0
  {
    if |items| > 1 {
      FormatChars(items[1..]);
    }
  }

  // ---------------------------------------------------------------------
  // get_core_count
  // ---------------------------------------------------------------------

  /** Only the first 511 bytes of the file are read: what follows them
      does not change the count. */
  lemma ReadsAtMostBuffer(opens: bool, readFails: bool, contents: seq<char>, b: int, e: int)
    requires |contents| >= ONLINE_SZ
    ensures GetCoreCount(opens, readFails, contents, b, e)
         == GetCoreCount(opens, readFails, contents[..ONLINE_SZ - 1], b, e)
  {
    assert contents[..ONLINE_SZ - 1][..ONLINE_SZ - 1] == contents[..ONLINE_SZ - 1];
  }

  /** `get_core_count` on a CPU-list file that fits the buffer returns the
      number of CPUs the list names. */
  lemma CoreCountOfList(items: seq<Item>, tail: seq<char>, b: int, e: int)
    requires AllSpace(tail) && |Format(items) + tail| < ONLINE_SZ
    ensures GetCoreCount(true, false, Format(items) + tail, b, e) == Total(items)
  {
    var s := Format(items) + tail;
    FormatChars(items);
    assert forall j :: 0 <= j < |s| ==> s[j] != '\0';
    assert s[..|s|] == s;
    CStringWhole(s);
    ScanIntScansNumerals();
    CountFormat(ScanInt, items, tail, 0, b, e);
    if s == [] {
      assert items == [];
    }
  }

  lemma FormatExample()
    ensures Format([Span(0, 3), Cpu(5), Span(7, 9)]) == "0-3,5,7-9"
  {
    var items := [Span(0, 3), Cpu(5), Span(7, 9)];
    assert NatDigits(0) == "0" && NatDigits(3) == "3" && NatDigits(5) == "5";
    assert NatDigits(7) == "7" && NatDigits(9) == "9";
    assert items[1..][1..] == [Span(7, 9)];
    assert Format(items[1..][1..]) == "7-9";
    assert Format(items[1..]) == "5" + "," + "7-9";
  }

  /** The example of the kernel's CPU-list format: "0-3,5,7-9" names 8 CPUs. */
  lemma ExampleList(line: seq<char>, b: int, e: int)
    requires line == "0-3,5,7-9\n"
    ensures GetCoreCount(true, false, line, b, e) == 8
  {
    var items := [Span(0, 3), Cpu(5), Span(7, 9)];
    var nl := "\n";
    FormatExample();
    assert line == Format(items) + nl;
    assert AllSpace(nl);
    assert Total(items) == 8;
    CoreCountOfList(items, nl, b, e);
  }
}
