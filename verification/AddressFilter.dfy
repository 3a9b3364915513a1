/** The driver's address filter: its bits and the comma-separated list they are read
    from (USBPcapCMD/iocontrol.c), and the list printed for the devices that match a
    vendor and product (USBPcapCMD/cmd.c, resolve_filter_matches). */
module AddressFilter {
  import opened Wrappers
  import Sequences

  // ---------- one word of bits ----------

  /** word & (1 << i), by halving the word. */
  predicate HasBit(word: nat, i: nat) {
    if i == 0 then word % 2 == 1 else HasBit(word / 2, i - 1)
  }

  /** word | (1 << i) */
  function WithBit(word: nat, i: nat): nat {
    if i == 0 then (if word % 2 == 1 then word else word + 1) else 2 * WithBit(word / 2, i - 1) + word % 2
  }

  lemma {:induction false} WithBitHas(word: nat, i: nat, j: nat)
    ensures HasBit(WithBit(word, i), j) <==> i == j || HasBit(word, j)
  {
    if i > 0 && j > 0 {
      WithBitHas(word / 2, i - 1, j - 1);
      assert WithBit(word, i) / 2 == WithBit(word / 2, i - 1);
    } else if i > 0 {
      assert WithBit(word, i) % 2 == word % 2;
    }
  }

  function Power2(n: nat): nat {
    if n == 0 then 1 else 2 * Power2(n - 1)
  }

  lemma {:induction false} Power2Positive(n: nat)
    ensures Power2(n) > 0
  {
    if n > 0 {
      Power2Positive(n - 1);
    }
  }

  lemma {:induction false} WithBitSmall(word: nat, i: nat, n: nat)
    requires i < n && word < Power2(n)
    ensures WithBit(word, i) < Power2(n)
  {
    if i > 0 {
      WithBitSmall(word / 2, i - 1, n - 1);
    }
  }

  /** Bit i is worth 2 to the power i. */
  lemma {:induction false} WithBitValue(word: nat, i: nat)
    ensures WithBit(word, i) == if HasBit(word, i) then word else word + Power2(i)
  {
    if i > 0 {
      WithBitValue(word / 2, i - 1);
    }
  }

  lemma PowerHasBit(i: nat, j: nat)
    ensures HasBit(Power2(i), j) <==> i == j
  {
    ZeroHasNone(i);
    ZeroHasNone(j);
    WithBitValue(0, i);
    WithBitHas(0, i, j);
  }

  lemma {:induction false} ZeroHasNone(i: nat)
    ensures !HasBit(0, i)
  {
    if i > 0 {
      ZeroHasNone(i - 1);
    }
  }

  // ---------- the filter ----------

  predicate IsAddress(a: int) {
    0 <= a <= 127
  }

  /** USBPCAP_ADDRESS_FILTER: four words of 32 bits. */
  class Filter {
    var addresses: seq<nat>
    var filterAll: bool

    ghost predicate Valid()
      reads this
    {
      |addresses| == 4 && forall r :: 0 <= r < 4 ==> addresses[r] < Power2(32)
    }

    /** The filter's bit for an address. */
    predicate Has(a: int)
      requires |addresses| == 4 && IsAddress(a)
      reads this
    {
      HasBit(addresses[a / 32], a % 32)
    }

    constructor (all: bool)
      ensures Valid() && filterAll == all && forall a :: IsAddress(a) ==> !Has(a)
    {
      addresses := [0, 0, 0, 0];
      filterAll := all;
      new;
      Power2Positive(32);
      forall a | IsAddress(a) ensures !Has(a) {
        ZeroHasNone(a % 32);
      }
    }

    method IsDeviceFiltered(address: int) returns (filtered: bool)
      requires Valid()
      ensures filtered <==> filterAll || !IsAddress(address) || Has(address)
    {
      if filterAll {
        return true;
      }
      if address < 0 || address > 127 {
        return true;
      }
      var range, index := address / 32, address % 32;
      return HasBit(addresses[range], index);
    }

    method SetDeviceFiltered(address: int) returns (ok: bool)
      requires Valid()
      modifies this`addresses
      ensures Valid() && ok == IsAddress(address)
      ensures !ok ==> addresses == old(addresses)
      ensures ok ==> forall a :: IsAddress(a) ==> (Has(a) <==> a == address || old(Has(a)))
    {
      if address < 0 || address > 127 {
        return false;
      }
      var range, index := address / 32, address % 32;
      WithBitSmall(addresses[range], index, 32);
      forall a | IsAddress(a) && a / 32 == range
        ensures HasBit(WithBit(addresses[range], index), a % 32) <==> a == address || Has(a)
      {
        WithBitHas(addresses[range], index, a % 32);
      }
      addresses := addresses[range := WithBit(addresses[range], index)];
      return true;
    }
  }

  // ---------- the list ----------

  predicate IsDigit(c: char) {
    '0' <= c <= '9'
  }

  function DigitValue(c: char): nat
    requires IsDigit(c)
  {
    (c - '0') as nat
  }

  predicate AllDigits(s: string) {
    forall i :: 0 <= i < |s| ==> IsDigit(s[i])
  }

  function Value(s: string): nat
    requires AllDigits(s)
  {
    if s == [] then 0 else 10 * Value(s[..|s| - 1]) + DigitValue(s[|s| - 1])
  }

  function RunLength(s: string): (n: nat)
    ensures n <= |s| && AllDigits(s[..n]) && (n < |s| ==> !IsDigit(s[n]))
  {
    if s == [] || !IsDigit(s[0]) then 0 else 1 + RunLength(s[1..])
  }

  /** The numbers of a list, in order: its runs of digits. */
  function Numbers(s: string): seq<nat>
    decreases |s|
  {
    if s == [] then []
    else if IsDigit(s[0]) then var n := RunLength(s); [Value(s[..n])] + Numbers(s[n..])
    else Numbers(s[1..])
  }

  predicate ListChars(s: string) {
    forall i :: 0 <= i < |s| ==> IsDigit(s[i]) || s[i] == ','
  }

  predicate InRange(numbers: seq<nat>) {
    forall k :: 0 <= k < |numbers| ==> numbers[k] <= 127
  }

  predicate WellFormed(s: string) {
    ListChars(s) && InRange(Numbers(s))
  }

  lemma ListCharsSplit(s: string, n: nat)
    requires n <= |s|
    ensures ListChars(s) <==> ListChars(s[..n]) && ListChars(s[n..])
  {}

  lemma InRangeCons(x: nat, rest: seq<nat>)
    ensures InRange([x] + rest) <==> x <= 127 && InRange(rest)
  {
    if InRange([x] + rest) {
      assert ([x] + rest)[0] == x;
      assert forall k :: 0 <= k < |rest| ==> rest[k] == ([x] + rest)[k + 1];
    }
  }

  lemma NumberStep(s: string)
    requires s != [] && IsDigit(s[0])
    ensures var n := RunLength(s);
      && 0 < n <= |s| && Numbers(s) == [Value(s[..n])] + Numbers(s[n..])
      && (WellFormed(s) <==> Value(s[..n]) <= 127 && WellFormed(s[n..]))
  {
    var n := RunLength(s);
    ListCharsSplit(s, n);
    InRangeCons(Value(s[..n]), Numbers(s[n..]));
  }

  /** Which bits a list asks for. */
  ghost predicate Marks(f: Filter, numbers: seq<nat>)
    requires f.Valid()
    reads f
  {
    forall a :: IsAddress(a) ==> (f.Has(a) <==> a in numbers)
  }

  /** The numbers done are behind the position, and the rest decides what is left. */
  ghost predicate Progress(s: string, pos: nat, done: seq<nat>) {
    && pos <= |s| && Numbers(s) == done + Numbers(s[pos..])
    && (WellFormed(s) <==> WellFormed(s[pos..]))
  }

  lemma ProgressNumber(s: string, pos: nat, done: seq<nat>)
    requires Progress(s, pos, done) && pos < |s| && IsDigit(s[pos])
    ensures var n := RunLength(s[pos..]);
      && Progress(s, pos, done) && pos + n <= |s|
      && (Value(s[pos..][..n]) > 127 ==> !WellFormed(s))
      && (Value(s[pos..][..n]) <= 127 ==> Progress(s, pos + n, done + [Value(s[pos..][..n])]))
  {
    var n := RunLength(s[pos..]);
    NumberStep(s[pos..]);
    assert s[pos..][n..] == s[pos + n..];
    Sequences.Regroup(done, [Value(s[pos..][..n])], Numbers(s[pos + n..]));
  }

  lemma ProgressOther(s: string, pos: nat, done: seq<nat>)
    requires Progress(s, pos, done) && pos < |s| && !IsDigit(s[pos])
    ensures if s[pos] == ',' then Progress(s, pos + 1, done) else !WellFormed(s)
  {}

  /** The loop that moves past a number. */
  method SkipNumber(s: string, start: nat) returns (pos: nat)
    requires start < |s| && IsDigit(s[start])
    ensures pos == start + RunLength(s[start..])
  {
    pos := start + 1;
    ghost var n := RunLength(s[start..]);
    assert forall i :: 0 <= i < n ==> s[start..][..n][i] == s[start + i];
    assert start + n < |s| ==> s[start..][n] == s[start + n];
    while pos < |s| && IsDigit(s[pos])
      invariant start < pos <= start + n
    {
      pos := pos + 1;
    }
  }

  /** The loop over the list. */
  method ParseList(tmp: Filter, s: string) returns (ok: bool)
    requires tmp.Valid() && Marks(tmp, [])
    modifies tmp`addresses
    ensures tmp.Valid() && ok == WellFormed(s)
    ensures ok ==> Marks(tmp, Numbers(s))
  {
    ghost var done: seq<nat> := [];
    Sequences.Empty(Numbers(s));
    assert s[0..] == s;
    var pos := 0;
    while pos < |s|
      invariant tmp.Valid() && Marks(tmp, done) && Progress(s, pos, done)
    {
      if IsDigit(s[pos]) {
        ProgressNumber(s, pos, done);
        var number := Value(s[pos..][..RunLength(s[pos..])]);   // atoi
        var inRange := tmp.SetDeviceFiltered(number);
        if !inRange {
          return false;
        }
        done := done + [number];
        pos := SkipNumber(s, pos);
      } else {
        ProgressOther(s, pos, done);
        if s[pos] != ',' {
          return false;
        }
        pos := pos + 1;
      }
    }
    assert s[pos..] == [];
    Sequences.Empty(done);
    return true;
  }

  /** USBPcapInitAddressFilter: the filter becomes the list's exactly when there is a
      filter and the list, if any, is well formed; otherwise it is left as it was. */
  method InitAddressFilter(filter: Filter?, list: Option<string>, filterAll: bool) returns (ok: bool)
    modifies filter
    ensures ok <==> filter != null && (list.Some? ==> WellFormed(list.value))
    ensures ok ==> filter.Valid() && filter.filterAll == filterAll
    ensures ok ==> Marks(filter, if list.Some? then Numbers(list.value) else [])
    ensures !ok && filter != null ==>
            filter.addresses == old(filter.addresses) && filter.filterAll == old(filter.filterAll)
  {
    if filter == null {
      return false;
    }
    var tmp := new Filter(filterAll);
    if list.Some? {
      var parsed := ParseList(tmp, list.value);
      if !parsed {
        return false;
      }
    }
    filter.addresses, filter.filterAll := tmp.addresses, tmp.filterAll;
    return true;
  }

  // ---------- the printer ----------

  /** "%u" */
  function Decimal(n: nat): (s: string)
    ensures AllDigits(s) && s != []
  {
    if n < 10 then [n as char + '0'] else Decimal(n / 10) + [(n % 10) as char + '0']
  }

  lemma {:induction false} ValueDecimal(n: nat)
    ensures Value(Decimal(n)) == n
  {
    if n >= 10 {
      ValueDecimal(n / 10);
      var d := Decimal(n);
      assert d[..|d| - 1] == Decimal(n / 10);
    }
  }

  /** The whole list: numbers separated by commas. */
  function Printed(numbers: seq<nat>): string {
    if numbers == [] then ""
    else
      var before := Printed(numbers[..|numbers| - 1]);
      var last := Decimal(numbers[|numbers| - 1]);
      if |numbers| == 1 then last else before + ("," + last)
  }

  lemma {:induction false} RunStops(s: string, t: string)
    ensures RunLength(s + ("," + t)) == RunLength(s)
  {
    var u := s + ("," + t);
    if s != [] && IsDigit(s[0]) {
      assert u[1..] == s[1..] + ("," + t);
      RunStops(s[1..], t);
    }
  }

  lemma {:induction false} NumbersAppend(s: string, t: string)
    ensures Numbers(s + ("," + t)) == Numbers(s) + Numbers(t)
    decreases |s|
  {
    var u := s + ("," + t);
    if s == [] {
      assert u[1..] == t;
    } else if IsDigit(s[0]) {
      var n := RunLength(s);
      RunStops(s, t);
      assert u[..n] == s[..n] && u[n..] == s[n..] + ("," + t);
      NumbersAppend(s[n..], t);
    } else {
      assert u[1..] == s[1..] + ("," + t);
      NumbersAppend(s[1..], t);
    }
  }

  lemma AllDigitsRun(s: string)
    requires AllDigits(s)
    ensures RunLength(s) == |s|
  {}

  lemma NumbersDecimal(n: nat)
    ensures Numbers(Decimal(n)) == [n]
  {
    var d := Decimal(n);
    AllDigitsRun(d);
    ValueDecimal(n);
    assert d[..|d|] == d && d[|d|..] == [];
  }

  /** The list a printer writes reads back as the same numbers. */
  lemma {:induction false} NumbersPrinted(numbers: seq<nat>)
    ensures Numbers(Printed(numbers)) == numbers && ListChars(Printed(numbers))
  {
    if numbers != [] {
      var n := |numbers| - 1;
      NumbersPrinted(numbers[..n]);
      NumbersDecimal(numbers[n]);
      if n > 0 {
        NumbersAppend(Printed(numbers[..n]), Decimal(numbers[n]));
      }
      Sequences.SnocTake(numbers, n);
    }
  }

  /** Round trip: a printed list is accepted exactly when all its addresses are in
      range, and then marks exactly those. */
  lemma AddressListRoundTrip(numbers: seq<nat>)
    ensures WellFormed(Printed(numbers)) <==> InRange(numbers)
    ensures Numbers(Printed(numbers)) == numbers
  {
    NumbersPrinted(numbers);
  }

  /** Numbers are decimal. */
  lemma DecimalDigits(a: nat, b: nat, c: nat)
    requires 0 < a < 10 && b < 10 && c < 10
    ensures Decimal(100 * a + 10 * b + c) == [a as char + '0', b as char + '0', c as char + '0']
  {
    var n := 100 * a + 10 * b + c;
    assert n / 10 == 10 * a + b && n % 10 == c;
    assert (10 * a + b) / 10 == a && (10 * a + b) % 10 == b;
    assert Decimal(a) == [a as char + '0'];
    assert Decimal(10 * a + b) == Decimal(a) + [b as char + '0'];
    assert Decimal(n) == Decimal(10 * a + b) + [c as char + '0'];
  }

  // ---------- the printer's buffer ----------

  datatype Device = Device(address: nat, vendor: nat, product: nat)

  predicate Matching(d: Device, vendor: Option<nat>, product: Option<nat>) {
    && (vendor.Some? ==> d.vendor == vendor.value)
    && (product.Some? ==> d.product == product.value)
  }

  function MatchingAddresses(ds: seq<Device>, vendor: Option<nat>, product: Option<nat>): seq<nat> {
    if ds == [] then []
    else
      var before := MatchingAddresses(ds[..|ds| - 1], vendor, product);
      if Matching(ds[|ds| - 1], vendor, product) then before + [ds[|ds| - 1].address] else before
  }

  /** found is the addresses of the devices at the places at, in order. */
  ghost predicate Selects(ds: seq<Device>, at: seq<nat>, found: seq<nat>) {
    && |at| == |found|
    && (forall j :: 0 <= j < |at| ==> at[j] < |ds| && found[j] == ds[at[j]].address)
    && (forall i, j :: 0 <= i < j < |at| ==> at[i] < at[j])
  }

  lemma SelectsMore(ds: seq<Device>, at: seq<nat>, found: seq<nat>)
    requires ds != [] && Selects(ds[..|ds| - 1], at, found)
    ensures Selects(ds, at, found) && Selects(ds, at + [|ds| - 1], found + [ds[|ds| - 1].address])
  {}

  /** The matches are the devices of the vendor and the product asked for. */
  lemma {:induction false} MatchingMeaning(ds: seq<Device>, vendor: Option<nat>, product: Option<nat>)
    returns (at: seq<nat>)
    ensures Selects(ds, at, MatchingAddresses(ds, vendor, product))
    ensures forall i: nat :: i in at <==> i < |ds| && (vendor == None || vendor == Some(ds[i].vendor))
                                          && (product == None || product == Some(ds[i].product))
  {
    at := [];
    if ds != [] {
      var n := |ds| - 1;
      var before := MatchingMeaning(ds[..n], vendor, product);
      SelectsMore(ds, before, MatchingAddresses(ds[..n], vendor, product));
      assert forall i: nat :: i < n ==> ds[..n][i] == ds[i];
      at := if Matching(ds[n], vendor, product) then before + [n] else before;
    }
  }

  lemma {:induction false} PrintedGrows(numbers: seq<nat>, i: nat)
    requires i <= |numbers|
    ensures |Printed(numbers[..i])| <= |Printed(numbers)|
  {
    if i == |numbers| {
      assert numbers[..i] == numbers;
    } else {
      PrintedGrows(numbers[..|numbers| - 1], i);
      assert numbers[..|numbers| - 1][..i] == numbers[..i];
    }
  }

  /** sprintf_s: None when the text and its terminator do not fit into the room left. */
  function Put(buffer: string, text: string, room: nat): Option<string> {
    if |buffer| + |text| + 1 > room then None else Some(buffer + text)
  }

  /** The address list of the matches, or None when it does not fit. */
  method PrintList(found: seq<nat>, addressListLen: nat) returns (list: Option<string>)
    ensures list == if |Printed(found)| <= addressListLen then Some(Printed(found)) else None
  {
    var text := "";
    for i := 0 to |found|
      invariant text == Printed(found[..i]) && |text| <= addressListLen
    {
      assert found[..i + 1][..i] == found[..i];
      PrintedGrows(found, i + 1);
      var put := Put(text, if i == 0 then Decimal(found[i]) else "," + Decimal(found[i]), addressListLen + 1);
      if put.None? {
        return None;
      }
      text := put.value;
    }
    assert found[..|found|] == found;
    list := Some(text);
  }

  lemma DecimalLength(n: nat)
    requires n < 1000
    ensures |Decimal(n)| <= 3
  {
    if n >= 10 {
      assert |Decimal(n)| == |Decimal(n / 10)| + 1;
      if n >= 100 {
        assert |Decimal(n / 10)| == |Decimal(n / 10 / 10)| + 1;
      }
    }
  }

  /** Device addresses always fit. */
  lemma {:induction false} AddressesFit(numbers: seq<nat>)
    requires InRange(numbers)
    ensures |Printed(numbers)| <= 4 * |numbers|
  {
    if numbers != [] {
      var n := |numbers| - 1;
      AddressesFit(numbers[..n]);
      DecimalLength(numbers[n]);
    }
  }

  /** The matching devices' addresses, and the list of them, None without a match. Five
      bytes are taken for each number, and it fails when the list needs more. */
  method ResolveFilterMatches(ds: seq<Device>, vendor: Option<nat>, product: Option<nat>)
    returns (ok: bool, found: seq<nat>, list: Option<string>)
    ensures found == MatchingAddresses(ds, vendor, product)
    ensures ok <==> |Printed(found)| <= 5 * |found|
    ensures list == if ok && found != [] then Some(Printed(found)) else None
  {
    found := [];
    var addressListLen := 0;
    for i := 0 to |ds|
      invariant found == MatchingAddresses(ds[..i], vendor, product) && addressListLen == 5 * |found|
    {
      assert ds[..i + 1][..i] == ds[..i];
      if (vendor.Some? && ds[i].vendor != vendor.value) || (product.Some? && ds[i].product != product.value) {
        continue;
      }
      found := found + [ds[i].address];
      addressListLen := addressListLen + 5;
    }
    assert ds[..|ds|] == ds;
    ok, list := true, None;
    if |found| > 0 {
      list := PrintList(found, addressListLen);
      ok := list.Some?;
    }
  }

  /** From the devices to the filter: the matches are printed to a list, and the filter
      read from it. That works exactly when there is a match and all addresses are in
      range, and then the filter holds the matching devices and no others. */
  method FilterMatches(ds: seq<Device>, vendor: Option<nat>, product: Option<nat>, filterAll: bool, filter: Filter)
    returns (ok: bool)
    modifies filter
    ensures var found := MatchingAddresses(ds, vendor, product);
      && (ok <==> found != [] && InRange(found))
      && (ok ==> filter.Valid() && filter.filterAll == filterAll && Marks(filter, found))
    ensures !ok ==> filter.addresses == old(filter.addresses) && filter.filterAll == old(filter.filterAll)
  {
    var resolved, found, list := ResolveFilterMatches(ds, vendor, product);
    if InRange(found) {
      AddressesFit(found);
    }
    if !resolved || |found| == 0 {
      return false;
    }
    AddressListRoundTrip(found);
    ok := InitAddressFilter(filter, list, filterAll);
  }

  /** Other 16-bit values need not: two of five digits need eleven bytes. */
  lemma LargeNumbersOverflow()
    ensures |Printed([65535, 65535])| == 11
  {}
}
