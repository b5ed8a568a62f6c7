/** The walk over a HID report descriptor that looks for a usage page and a
    usage (hidapi/linux/hid.c; items as in sections 6.2.2.2 and 6.2.2.3 of the
    Device Class Definition for HID, version 1.11). */
module ReportDescriptor {
  import opened Prelude

  // -------------------------------------------------------------------- items

  datatype Item =
    | Short(prefix: Byte, data: seq<Byte>)
    | Long(prefix: Byte, tag: Byte, data: seq<Byte>)

  predicate IsLongPrefix(b: Byte) { b >= 0xF0 }

  /** The two low bits of a short item's prefix give its data size. */
  function ShortSize(prefix: Byte): nat { if prefix % 4 == 3 then 4 else prefix % 4 }

  function Pow(base: nat, n: nat): nat { if n == 0 then 1 else base * Pow(base, n - 1) }

  /** The size bits of section 6.2.2.2 stand for 0, 1, 2 and 4 bytes: half of two to their power. */
  lemma SizeBits(prefix: Byte)
    ensures ShortSize(prefix) == Pow(2, prefix % 4) / 2
  {
    assert Pow(2, 0) == 1 && Pow(2, 1) == 2 && Pow(2, 2) == 4 && Pow(2, 3) == 8;
  }

  /** A long item has all four tag bits set, as 0xFE of section 6.2.2.3 has. */
  lemma LongPrefixBits(b: Byte)
    ensures IsLongPrefix(b) <==> b / 16 == 15
  {
  }

  predicate ValidItem(item: Item) {
    match item
    case Short(prefix, data) => !IsLongPrefix(prefix) && |data| == ShortSize(prefix)
    case Long(prefix, _, data) => IsLongPrefix(prefix) && |data| < 256
  }

  function Encode(item: Item): seq<Byte>
    requires ValidItem(item)
  {
    match item
    case Short(prefix, data) => [prefix] + data
    case Long(prefix, tag, data) => [prefix, |data|, tag] + data
  }

  predicate ValidItems(items: seq<Item>) { forall k | 0 <= k < |items| :: ValidItem(items[k]) }

  function EncodeAll(items: seq<Item>): seq<Byte>
    requires ValidItems(items)
  {
    if items == [] then [] else Encode(items[0]) + EncodeAll(items[1..])
  }

  // ------------------------------------------------------------------ meaning

  /** Usage page and usage found so far, as 16-bit values. */
  datatype Found = Found(page: Option<nat>, usage: Option<nat>)

  predicate Complete(f: Found) { f.page.Some? && f.usage.Some? }

  /** Little-endian value. */
  function Value(data: seq<Byte>): nat {
    if data == [] then 0 else data[0] as int + 256 * Value(data[1..])
  }

  /** Little-endian: bytes that follow count for more. */
  lemma {:induction false} ValueOfConcat(a: seq<Byte>, b: seq<Byte>)
    ensures Value(a + b) == Value(a) + Pow(256, |a|) * Value(b)
  {
    if a == [] {
      assert a + b == b;
    } else {
      ValueOfConcat(a[1..], b);
      assert (a + b)[1..] == a[1..] + b;
    }
  }

  function Noted(f: Found, prefix: Byte, value: nat): Found {
    if prefix - prefix % 4 == 0x04 then f.(page := Some(value % 0x1_0000))
    else if prefix - prefix % 4 == 0x08 then f.(usage := Some(value % 0x1_0000))
    else f
  }

  function NotedItem(f: Found, item: Item): Found {
    match item
    case Short(prefix, data) => Noted(f, prefix, Value(data))
    case Long(prefix, _, _) => f
  }

  /** Items in order until both are found. */
  function Fold(f: Found, items: seq<Item>): Found
    decreases |items|
  {
    if Complete(f) || items == [] then f else Fold(NotedItem(f, items[0]), items[1..])
  }

  // ------------------------------------------------------- splitting any bytes

  /** Size the first byte (and, for a long item, the second) announces. */
  function Announced(bytes: seq<Byte>): nat
    requires bytes != []
    ensures Announced(bytes) >= 1
  {
    if IsLongPrefix(bytes[0]) then 3 + (if |bytes| > 1 then bytes[1] else 0) else 1 + ShortSize(bytes[0])
  }

  function Head(bytes: seq<Byte>): (item: Item)
    requires bytes != [] && Announced(bytes) <= |bytes|
    ensures ValidItem(item) && Encode(item) == bytes[..Announced(bytes)]
  {
    if IsLongPrefix(bytes[0]) then Long(bytes[0], bytes[2], bytes[3..Announced(bytes)])
    else Short(bytes[0], bytes[1..Announced(bytes)])
  }

  /** Splits bytes into whole items and what is left. */
  function Split(bytes: seq<Byte>): (r: (seq<Item>, seq<Byte>))
    ensures ValidItems(r.0)
    decreases |bytes|
  {
    if bytes == [] || |bytes| < Announced(bytes) then ([], bytes)
    else
      var rest := Split(bytes[Announced(bytes)..]);
      ([Head(bytes)] + rest.0, rest.1)
  }

  lemma EncodeAllOneMore(item: Item, items: seq<Item>)
    requires ValidItem(item) && ValidItems(items)
    ensures ValidItems([item] + items) && EncodeAll([item] + items) == Encode(item) + EncodeAll(items)
  {
    assert ([item] + items)[1..] == items;
  }

  lemma Associative<T>(a: seq<T>, b: seq<T>, c: seq<T>)
    ensures a + b + c == a + (b + c)
  {
  }

  lemma CutAndJoin<T>(s: seq<T>, n: nat)
    requires n <= |s|
    ensures s[..n] + s[n..] == s
  {
  }

  /** Every byte string is whole items and at most one cut-off item after them. */
  lemma {:induction false} SplitCovers(bytes: seq<Byte>)
    ensures EncodeAll(Split(bytes).0) + Split(bytes).1 == bytes
    decreases |bytes|
  {
    if bytes == [] || |bytes| < Announced(bytes) {
    } else {
      var n := Announced(bytes);
      var rest := Split(bytes[n..]);
      SplitCovers(bytes[n..]);
      EncodeAllOneMore(Head(bytes), rest.0);
      Associative(bytes[..n], EncodeAll(rest.0), rest.1);
      CutAndJoin(bytes, n);
    }
  }

  lemma {:induction false} SplitLeavesPart(bytes: seq<Byte>)
    ensures Split(bytes).1 != [] ==> |Split(bytes).1| < Announced(Split(bytes).1)
    decreases |bytes|
  {
    if bytes == [] || |bytes| < Announced(bytes) {
    } else {
      SplitLeavesPart(bytes[Announced(bytes)..]);
    }
  }

  /** What a descriptor says: its whole items in order; a cut-off one counts as zero. */
  function Meaning(bytes: seq<Byte>): Found {
    var (items, tail) := Split(bytes);
    var f := Fold(Found(None, None), items);
    if Complete(f) || tail == [] then f else Noted(f, tail[0], 0)
  }

  lemma SplitHead(item: Item, rest: seq<Byte>)
    requires ValidItem(item)
    ensures var bytes := Encode(item) + rest;
            && bytes != [] && Announced(bytes) == |Encode(item)| && Head(bytes) == item
            && bytes[Announced(bytes)..] == rest
  {
    var bytes := Encode(item) + rest;
    if item.Short? {
      assert bytes[1..Announced(bytes)] == item.data;
    } else {
      assert bytes[3..Announced(bytes)] == item.data;
    }
  }

  /** Splitting an encoding gives back its items: the item boundaries are unambiguous. */
  lemma {:induction false} SplitEncoding(items: seq<Item>)
    requires ValidItems(items)
    ensures Split(EncodeAll(items)) == (items, [])
    decreases |items|
  {
    hide Announced, Head, Encode;
    if items == [] {
    } else {
      SplitEncoding(items[1..]);
      SplitHead(items[0], EncodeAll(items[1..]));
      assert [items[0]] + items[1..] == items;
    }
  }

  /** For the encoding of any items, the descriptor means what the items say. */
  lemma MeaningOfEncoding(items: seq<Item>)
    requires ValidItems(items)
    ensures Meaning(EncodeAll(items)) == Fold(Found(None, None), items)
  {
    SplitEncoding(items);
  }

  lemma FoldOneMore(f: Found, item: Item, rest: seq<Item>)
    requires !Complete(f)
    ensures Fold(f, [item] + rest) == Fold(NotedItem(f, item), rest)
  {
    assert ([item] + rest)[1..] == rest;
  }

  lemma ValueOfOne(b: Byte)
    ensures Value([b]) == b
  {
    assert [b][1..] == [];
  }

  lemma FoldOfThree(a: Item, b: Item, c: Item)
    requires !Complete(NotedItem(Found(None, None), a)) && !Complete(NotedItem(NotedItem(Found(None, None), a), b))
    ensures Fold(Found(None, None), [a] + ([b] + ([c] + []))) ==
            NotedItem(NotedItem(NotedItem(Found(None, None), a), b), c)
  {
    hide NotedItem;
    FoldOneMore(Found(None, None), a, [b] + ([c] + []));
    FoldOneMore(NotedItem(Found(None, None), a), b, [c] + []);
    FoldOneMore(NotedItem(NotedItem(Found(None, None), a), b), c, []);
  }

  /** Each further item counts exactly as long as not both values are known. */
  lemma {:induction false} FoldKeepsLatest(f: Found, items: seq<Item>, item: Item)
    requires !Complete(f)
    ensures Fold(f, items + [item]) ==
            if Complete(Fold(f, items)) then Fold(f, items) else NotedItem(Fold(f, items), item)
    decreases |items|
  {
    if items == [] {
      assert [item][1..] == [];
    } else {
      var g := NotedItem(f, items[0]);
      assert (items + [item])[1..] == items[1..] + [item];
      if !Complete(g) { FoldKeepsLatest(g, items[1..], item); }
    }
  }

  // ------------------------------------- which page and usage a descriptor gives

  /** The usage page an item sets, if it is a usage page item. */
  function PageOf(item: Item): Option<nat> {
    if item.Short? && item.prefix - item.prefix % 4 == 0x04 then Some(Value(item.data) % 0x1_0000) else None
  }

  function UsageOf(item: Item): Option<nat> {
    if item.Short? && item.prefix - item.prefix % 4 == 0x08 then Some(Value(item.data) % 0x1_0000) else None
  }

  function Or<T>(first: Option<T>, second: Option<T>): Option<T> { if first.Some? then first else second }

  function FirstPage(items: seq<Item>): Option<nat> {
    if items == [] then None else Or(PageOf(items[0]), FirstPage(items[1..]))
  }

  function FirstUsage(items: seq<Item>): Option<nat> {
    if items == [] then None else Or(UsageOf(items[0]), FirstUsage(items[1..]))
  }

  function LastPage(items: seq<Item>): Option<nat> {
    if items == [] then None else Or(LastPage(items[1..]), PageOf(items[0]))
  }

  function LastUsage(items: seq<Item>): Option<nat> {
    if items == [] then None else Or(LastUsage(items[1..]), UsageOf(items[0]))
  }

  /** The items before the first usage page. */
  function UntilPage(items: seq<Item>): seq<Item> {
    if items == [] || PageOf(items[0]).Some? then [] else [items[0]] + UntilPage(items[1..])
  }

  /** The items before the first usage. */
  function UntilUsage(items: seq<Item>): seq<Item> {
    if items == [] || UsageOf(items[0]).Some? then [] else [items[0]] + UntilUsage(items[1..])
  }

  lemma NotedByParts(f: Found, item: Item)
    ensures NotedItem(f, item) == Found(Or(PageOf(item), f.page), Or(UsageOf(item), f.usage))
    ensures PageOf(item) == None || UsageOf(item) == None
  {
  }

  /** With a page known, the fold ends at the first usage and holds the last page before it. */
  lemma {:induction false} FoldFromPage(page: nat, items: seq<Item>)
    ensures Fold(Found(Some(page), None), items)
         == Found(Or(LastPage(UntilUsage(items)), Some(page)), FirstUsage(items))
    decreases |items|
  {
    hide NotedItem, PageOf, UsageOf;
    if items == [] {
    } else {
      NotedByParts(Found(Some(page), None), items[0]);
      if UsageOf(items[0]) == None {
        FoldFromPage(Or(PageOf(items[0]), Some(page)).value, items[1..]);
        assert UntilUsage(items)[1..] == UntilUsage(items[1..]);
      }
    }
  }

  lemma {:induction false} FoldFromUsage(usage: nat, items: seq<Item>)
    ensures Fold(Found(None, Some(usage)), items)
         == Found(FirstPage(items), Or(LastUsage(UntilPage(items)), Some(usage)))
    decreases |items|
  {
    hide NotedItem, PageOf, UsageOf;
    if items == [] {
    } else {
      NotedByParts(Found(None, Some(usage)), items[0]);
      if PageOf(items[0]) == None {
        FoldFromUsage(Or(UsageOf(items[0]), Some(usage)).value, items[1..]);
        assert UntilPage(items)[1..] == UntilPage(items[1..]);
      }
    }
  }

  /** The page and usage that count: the last page before the first usage or, if
      there is none, the first page; and the other way round. */
  function Counting(items: seq<Item>): Found {
    Found(Or(LastPage(UntilUsage(items)), FirstPage(items)), Or(LastUsage(UntilPage(items)), FirstUsage(items)))
  }

  /** The fold in closed form, whether or not both values occur. */
  lemma {:induction false} FoldIsCounting(items: seq<Item>)
    ensures Fold(Found(None, None), items) == Counting(items)
    decreases |items|
  {
    hide NotedItem, PageOf, UsageOf;
    if items == [] {
    } else {
      NotedByParts(Found(None, None), items[0]);
      if PageOf(items[0]).Some? {
        FoldFromPage(PageOf(items[0]).value, items[1..]);
        assert UntilUsage(items)[1..] == UntilUsage(items[1..]);
      } else if UsageOf(items[0]).Some? {
        FoldFromUsage(UsageOf(items[0]).value, items[1..]);
        assert UntilPage(items)[1..] == UntilPage(items[1..]);
      } else {
        FoldIsCounting(items[1..]);
        assert UntilUsage(items)[1..] == UntilUsage(items[1..]);
        assert UntilPage(items)[1..] == UntilPage(items[1..]);
      }
    }
  }

  /** What the walk reads of any bytes: the whole items, then a cut-off one as if it had no data. */
  function ItemsRead(bytes: seq<Byte>): seq<Item> {
    var (items, tail) := Split(bytes);
    items + (if tail == [] then [] else [Short(tail[0], [])])
  }

  lemma MeaningIsCounting(bytes: seq<Byte>)
    ensures Meaning(bytes) == Counting(ItemsRead(bytes))
  {
    var (items, tail) := Split(bytes);
    if tail == [] {
      assert items + [] == items;
    } else {
      FoldKeepsLatest(Found(None, None), items, Short(tail[0], []));
    }
    FoldIsCounting(ItemsRead(bytes));
  }

  /** The last page before the first usage, if there is one, has the first page's
      value; and the same with page and usage exchanged. */
  predicate FirstsStand(items: seq<Item>) {
    && (LastPage(UntilUsage(items)) == None || LastPage(UntilUsage(items)) == FirstPage(items))
    && (LastUsage(UntilPage(items)) == None || LastUsage(UntilPage(items)) == FirstUsage(items))
  }

  /** For every byte string, the first page and the first usage are what is
      returned exactly when the firsts stand. */
  lemma FirstsFoundExactly(bytes: seq<Byte>)
    ensures Meaning(bytes) == Found(FirstPage(ItemsRead(bytes)), FirstUsage(ItemsRead(bytes)))
            <==> FirstsStand(ItemsRead(bytes))
  {
    MeaningIsCounting(bytes);
  }

  /** The same for the encoding of any list of items. */
  lemma FirstsOfItemsExactly(items: seq<Item>)
    requires ValidItems(items)
    ensures Meaning(EncodeAll(items)) == Found(FirstPage(items), FirstUsage(items)) <==> FirstsStand(items)
  {
    MeaningOfEncoding(items);
    FoldIsCounting(items);
  }

  /** Of two different usage pages before the usage the later one counts, against the promise. */
  lemma LatestPageWins(first: Byte, second: Byte, usage: Byte)
    requires first != second
    ensures var bytes := [0x05, first, 0x05, second, 0x09, usage];
            && Meaning(bytes) == Found(Some(second), Some(usage))
            && FirstPage(ItemsRead(bytes)) == Some(first) && !FirstsStand(ItemsRead(bytes))
  {
    var a, b, c := Short(0x05, [first]), Short(0x05, [second]), Short(0x09, [usage]);
    ValueOfOne(first);
    ValueOfOne(second);
    ValueOfOne(usage);
    EncodeAllOneMore(c, []);
    EncodeAllOneMore(b, [c] + []);
    EncodeAllOneMore(a, [b] + ([c] + []));
    var items := [a] + ([b] + ([c] + []));
    var bytes := [0x05, first, 0x05, second, 0x09, usage];
    assert EncodeAll(items) == bytes;
    MeaningOfEncoding(items);
    FoldOfThree(a, b, c);
    SplitEncoding(items);
    assert ItemsRead(bytes) == items;
    assert FirstPage(items) == Some(first);
    FirstsFoundExactly(bytes);
  }

  // ----------------------------------------------------------------- the walk

  lemma FourBytes(data: seq<Byte>)
    requires |data| == 4
    ensures Value(data) == data[0] as int + 0x100 * data[1] as int + 0x1_0000 * data[2] as int + 0x100_0000 * data[3] as int
  {
    assert data[1..][1..] == data[2..] && data[2..][1..] == data[3..] && data[3..][1..] == [];
    assert Value(data[3..]) == data[3];
    assert Value(data[2..]) == data[2] as int + 256 * data[3] as int;
    assert Value(data[1..]) == data[1] as int + 256 * (data[2] as int + 256 * data[3] as int);
  }

  /** Value of the numBytes bytes after position cur, or 0 if they are not all there. */
  method GetBytes(rpt: array<Byte>, numBytes: nat, cur: nat) returns (value: nat)
    requires cur < rpt.Length && numBytes in {0, 1, 2, 4}
    ensures value == if cur + numBytes < rpt.Length then Value(rpt[cur + 1..cur + 1 + numBytes]) else 0
  {
    if cur + numBytes >= rpt.Length {
      return 0;
    }
    ghost var data := rpt[cur + 1..cur + 1 + numBytes];
    if numBytes == 0 {
      value := 0;
    } else if numBytes == 1 {
      value := rpt[cur + 1];
      assert Value(data[1..]) == 0;
    } else if numBytes == 2 {
      value := rpt[cur + 2] as int * 256 + rpt[cur + 1] as int;
      assert Value(data[1..]) == data[1] as int + 256 * Value(data[2..]) by { assert data[1..][1..] == data[2..]; }
    } else {
      value := rpt[cur + 4] as int * 0x100_0000 + rpt[cur + 3] as int * 0x1_0000
             + rpt[cur + 2] as int * 0x100 + rpt[cur + 1] as int;
      FourBytes(data);
    }
  }

  /** What is left to find when the walk stands at the start of bytes. */
  function Rest(f: Found, bytes: seq<Byte>): Found
    decreases |bytes|
  {
    if Complete(f) || bytes == [] then f
    else if |bytes| < Announced(bytes) then Noted(f, bytes[0], 0)
    else Rest(NotedItem(f, Head(bytes)), bytes[Announced(bytes)..])
  }

  lemma {:induction false} RestIsFold(f: Found, bytes: seq<Byte>)
    ensures var (items, tail) := Split(bytes);
            Rest(f, bytes) ==
            (var g := Fold(f, items); if Complete(g) || tail == [] then g else Noted(g, tail[0], 0))
    decreases |bytes|
  {
    if bytes == [] || |bytes| < Announced(bytes) || Complete(f) {
    } else {
      var n := Announced(bytes);
      var (items, tail) := Split(bytes[n..]);
      RestIsFold(NotedItem(f, Head(bytes)), bytes[n..]);
      assert ([Head(bytes)] + items)[1..] == items;
    }
  }

  /** One short item under the walk: whole, or cut off and read as zero. */
  lemma ShortStep(f: Found, bytes: seq<Byte>)
    requires bytes != [] && !Complete(f) && !IsLongPrefix(bytes[0])
    ensures var n := ShortSize(bytes[0]);
            if n < |bytes| then Rest(f, bytes) == Rest(Noted(f, bytes[0], Value(bytes[1..1 + n])), bytes[1 + n..])
            else Rest(f, bytes) == Noted(f, bytes[0], 0)
  {
  }

  lemma LongStep(f: Found, bytes: seq<Byte>)
    requires bytes != [] && !Complete(f) && IsLongPrefix(bytes[0])
    ensures Rest(f, bytes) == if Announced(bytes) <= |bytes| then Rest(f, bytes[Announced(bytes)..]) else f
  {
  }

  /** Reads the item at i: notes a usage page or usage and finds where the next item starts. */
  method ReadItem(rpt: array<Byte>, i: nat, before: Found) returns (next: nat, found: Found)
    requires i < rpt.Length && !Complete(before)
    ensures i < next
    ensures Rest(before, rpt[i..]) == if next <= rpt.Length then Rest(found, rpt[next..]) else found
    ensures next == i + Announced(rpt[i..])
  {
    hide Value, Rest, Head;
    var key := rpt[i];
    var dataLen, keySize;
    ghost var bytes := rpt[i..];
    found := before;
    if key >= 0xF0 {
      dataLen := if i + 1 < rpt.Length then rpt[i + 1] else 0;
      keySize := 3;
      LongStep(found, bytes);
    } else {
      dataLen := if key % 4 == 3 then 4 else key % 4;
      keySize := 1;
      ShortStep(found, bytes);
      var value := GetBytes(rpt, dataLen, i);
      if i + dataLen < rpt.Length {
        assert rpt[i + 1..i + 1 + dataLen] == bytes[1..1 + dataLen];
      }
      if key - key % 4 == 0x04 { found := found.(page := Some(value % 0x1_0000)); }
      if key - key % 4 == 0x08 { found := found.(usage := Some(value % 0x1_0000)); }
    }
    next := i + dataLen + keySize;
    if next <= rpt.Length {
      assert bytes[dataLen + keySize..] == rpt[next..];
    }
  }

  /** Looks for usage page and usage; result is 0 if both were found and -1 if
      not. For every descriptor, cut off or not, the answer is its meaning. */
  method GetUsage(rpt: array<Byte>) returns (result: int, found: Found)
    ensures found == Meaning(rpt[..])
    ensures result == if Complete(found) then 0 else -1
  {
    var i := 0;
    found := Found(None, None);
    RestIsFold(found, rpt[..]);
    assert rpt[0..] == rpt[..];
    while i < rpt.Length
      invariant !Complete(found)
      invariant if i <= rpt.Length then Rest(found, rpt[i..]) == Meaning(rpt[..]) else found == Meaning(rpt[..])
      decreases rpt.Length - i
    {
      i, found := ReadItem(rpt, i, found);
      if found.page.Some? && found.usage.Some? {
        return 0, found;
      }
    }
    result := -1;
  }
}
