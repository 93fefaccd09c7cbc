/** The settings of the netboot firmware, and the areas of the image that they are written into
    (host/netboot_firmware_settings.py). */
module NetbootSettings {
  import opened Prelude

  newtype byte = x: int | 0 <= x < 256

  type Bytes = seq<byte>

  const WORD := 0x1_0000_0000

  // ---------- little-endian words ----------

  function U32(n: nat): (r: Bytes)
    requires n < WORD
    ensures |r| == 4
  {
    [(n % 256) as byte, (n / 256 % 256) as byte, (n / 65536 % 256) as byte, (n / 16777216) as byte]
  }

  ghost function FromU32(b: Bytes): nat
    requires |b| >= 4
  {
    b[0] as nat + 256 * b[1] as nat + 65536 * b[2] as nat + 16777216 * b[3] as nat
  }

  lemma WordReadBack(n: nat, rest: Bytes)
    requires n < WORD
    ensures FromU32(U32(n) + rest) == n
  {
    var a, b := n / 256, n / 65536;
    assert a / 256 == b && b / 256 == n / 16777216;
    assert n == 256 * a + n % 256 && a == 256 * b + a % 256 && b == 256 * (n / 16777216) + b % 256;
  }

  // ---------- packing ----------

  /** A setting: its code, and its value if it was given one. */
  datatype Attribute = Attribute(code: nat, value: Option<Bytes>)

  function ValueOf(a: Attribute): Bytes {
    if a.value.Some? then a.value.value else []
  }

  function Zeros(n: nat): (r: Bytes)
    ensures |r| == n
  {
    seq(n, _ => 0)
  }

  function Padding(n: nat): (r: nat)
    ensures r < 4 && (n + r) % 4 == 0
  {
    (n + 3) / 4 * 4 - n
  }

  ghost predicate Fits(a: Attribute) {
    a.code < WORD && |ValueOf(a)| < WORD
  }

  /** The binary representation of an attribute; None where struct.pack refuses a number. */
  function PackAttribute(a: Attribute): Option<Bytes> {
    var v := ValueOf(a);
    if a.code < WORD && |v| < WORD then Some(U32(a.code) + U32(|v|) + (v + Zeros(Padding(|v|)))) else None
  }

  function PackAttributes(attrs: seq<Attribute>): Option<Bytes> {
    if attrs == [] then Some([])
    else
      var init, last := PackAttributes(attrs[..|attrs| - 1]), PackAttribute(attrs[|attrs| - 1]);
      if init.Some? && last.Some? then Some(init.value + last.value) else None
  }

  const SIGNATURE: Bytes := [110, 101, 116, 98, 111, 111, 116, 0]  // "netboot\0"

  function Header(n: nat): (r: Bytes)
    requires n < WORD
    ensures |r| == 12
  {
    SIGNATURE + U32(n)
  }

  // ---------- what the firmware makes of it ----------

  ghost function DecodeAttributes(b: Bytes, n: nat): Option<seq<(nat, Bytes)>> {
    if n == 0 then Some([])
    else if |b| < 8 then None
    else
      var size := FromU32(b[4..]);
      var whole := 8 + size + Padding(size);
      if |b| < whole then None
      else
        var rest := DecodeAttributes(b[whole..], n - 1);
        if rest.Some? then Some([(FromU32(b), b[8..8 + size])] + rest.value) else None
  }

  /** Reads as many attributes as the count says, whatever follows them. */
  ghost function Decode(b: Bytes): Option<seq<(nat, Bytes)>> {
    if |b| < 12 || b[..8] != SIGNATURE then None else DecodeAttributes(b[12..], FromU32(b[8..]))
  }

  ghost function Content(a: Attribute): (nat, Bytes) {
    (a.code, ValueOf(a))
  }

  ghost function Contents(attrs: seq<Attribute>): (r: seq<(nat, Bytes)>)
    ensures |r| == |attrs|
  {
    seq(|attrs|, i requires 0 <= i < |attrs| => Content(attrs[i]))
  }

  lemma AttributeReadBack(a: Attribute, rest: Bytes)
    requires Fits(a)
    ensures var b := PackAttribute(a).value + rest; var size := |ValueOf(a)|; var whole := 8 + size + Padding(size);
            && PackAttribute(a).Some? && |PackAttribute(a).value| == whole && whole % 4 == 0
            && FromU32(b) == a.code && FromU32(b[4..]) == size && b[8..8 + size] == ValueOf(a) && b[whole..] == rest
  {
    var v := ValueOf(a);
    var pad := v + Zeros(Padding(|v|));
    var b := PackAttribute(a).value + rest;
    WordReadBack(a.code, U32(|v|) + pad + rest);
    assert b == U32(a.code) + (U32(|v|) + pad + rest);
    WordReadBack(|v|, pad + rest);
    assert b[4..] == U32(|v|) + (pad + rest);
    assert b[8..] == pad + rest;
    assert b[8..8 + |v|] == v;
  }

  /** Byte by byte: code and length with the low byte first, the value, and zeros up to a multiple of
      four; an attribute without a value has length zero. */
  lemma AttributeInBytes(a: Attribute)
    ensures var v := match a.value case Some(v) => v case None => [];
            PackAttribute(a).Some? <==> a.code < 0x1_0000_0000 && |v| < 0x1_0000_0000
    ensures var v := match a.value case Some(v) => v case None => [];
            PackAttribute(a).Some? ==>
              var b := PackAttribute(a).value;
              && |b| % 4 == 0 && 8 + |v| <= |b| < 12 + |v|
              && a.code == b[0] as nat + 0x100 * b[1] as nat + 0x1_0000 * b[2] as nat + 0x100_0000 * b[3] as nat
              && |v| == b[4] as nat + 0x100 * b[5] as nat + 0x1_0000 * b[6] as nat + 0x100_0000 * b[7] as nat
              && (forall k :: 0 <= k < |v| ==> b[8 + k] == v[k])
              && (forall k :: 8 + |v| <= k < |b| ==> b[k] == 0)
  {
    if Fits(a) {
      AttributeReadBack(a, []);
      var b := PackAttribute(a).value;
      assert b + [] == b;
      hide Padding;
    }
  }

  /** The whole representation: "netboot" and a zero byte, the number of attributes, and the
      attributes one after the other. */
  lemma PackedInBytes(attrs: seq<Attribute>)
    requires |attrs| < 0x1_0000_0000
    ensures Packed(attrs).Some? <==> forall a <- attrs :: PackAttribute(a).Some?
    ensures Packed(attrs).Some? ==>
              var b := Packed(attrs).value;
              && |b| >= 12 && b[..8] == [110, 101, 116, 98, 111, 111, 116, 0]
              && |attrs| == b[8] as nat + 0x100 * b[9] as nat + 0x1_0000 * b[10] as nat + 0x100_0000 * b[11] as nat
              && PackAttributes(attrs) == Some(b[12..])
  {
    AllPackExactly(attrs);
    if Packed(attrs).Some? {
      var n, body := |attrs|, PackAttributes(attrs).value;
      WordReadBack(n, body);
      hide U32, PackAttribute, PackAttributes;
      var b := Packed(attrs).value;
      assert b == SIGNATURE + U32(n) + body && b[8..] == U32(n) + body && b[12..] == body;
    }
  }

  lemma {:induction false} AllPackExactly(attrs: seq<Attribute>)
    ensures PackAttributes(attrs).Some? <==> forall a <- attrs :: PackAttribute(a).Some?
  {
    hide PackAttribute;
    if attrs != [] {
      var init := attrs[..|attrs| - 1];
      AllPackExactly(init);
      assert attrs == init + [attrs[|attrs| - 1]];
    }
  }

  lemma PackNext(attrs: seq<Attribute>, i: nat)
    requires i < |attrs|
    ensures PackAttributes(attrs[..i + 1]) ==
            if PackAttributes(attrs[..i]).Some? && PackAttribute(attrs[i]).Some?
            then Some(PackAttributes(attrs[..i]).value + PackAttribute(attrs[i]).value) else None
  {
    hide PackAttribute;
    assert attrs[..i + 1][..i] == attrs[..i];
  }

  lemma FitsPacks(a: Attribute)
    requires Fits(a)
    ensures PackAttribute(a).Some?
  {
    hide U32, Padding, Zeros;
  }

  function Joined(x: Option<Bytes>, y: Option<Bytes>): Option<Bytes> {
    if x.Some? && y.Some? then Some(x.value + y.value) else None
  }

  lemma JoinedTwice(x: Option<Bytes>, y: Option<Bytes>, z: Option<Bytes>)
    ensures Joined(Joined(x, y), z) == Joined(x, Joined(y, z))
  {
    if x.Some? && y.Some? && z.Some? {
      assert (x.value + y.value) + z.value == x.value + (y.value + z.value);
    }
  }

  lemma PackBack(attrs: seq<Attribute>, a: Attribute)
    ensures PackAttributes(attrs + [a]) == Joined(PackAttributes(attrs), PackAttribute(a))
  {
    hide PackAttribute;
    assert (attrs + [a])[..|attrs|] == attrs;
  }

  lemma PackNone(a: Attribute)
    ensures PackAttributes([]) == Some([])
    ensures Joined(Some([]), PackAttribute(a)) == PackAttribute(a) == Joined(PackAttribute(a), Some([]))
  {
    hide PackAttribute;
    var x := PackAttribute(a);
    if x.Some? {
      assert [] + x.value == x.value == x.value + [];
    }
  }

  lemma {:induction false} PackCons(a: Attribute, attrs: seq<Attribute>)
    ensures PackAttributes([a] + attrs) == Joined(PackAttribute(a), PackAttributes(attrs))
    decreases |attrs|
  {
    hide PackAttribute, PackAttributes, Joined;
    PackNone(a);
    if attrs == [] {
      PackBack([], a);
      assert [a] + attrs == [] + [a];
    } else {
      var init, last := attrs[..|attrs| - 1], attrs[|attrs| - 1];
      PackCons(a, init);
      PackBack([a] + init, last);
      PackBack(init, last);
      JoinedTwice(PackAttribute(a), PackAttributes(init), PackAttribute(last));
      assert [a] + attrs == ([a] + init) + [last] && attrs == init + [last];
    }
  }

  lemma {:induction false} AllPack(attrs: seq<Attribute>)
    requires forall a <- attrs :: Fits(a)
    ensures PackAttributes(attrs).Some?
  {
    if attrs != [] {
      hide PackAttribute, Fits;
      FitsPacks(attrs[|attrs| - 1]);
      AllPack(attrs[..|attrs| - 1]);
    }
  }

  lemma PackFront(attrs: seq<Attribute>)
    requires attrs != [] && forall a <- attrs :: Fits(a)
    ensures PackAttributes(attrs).Some? && PackAttributes(attrs[1..]).Some? && PackAttribute(attrs[0]).Some?
    ensures PackAttributes(attrs).value == PackAttribute(attrs[0]).value + PackAttributes(attrs[1..]).value
  {
    hide PackAttribute, PackAttributes, Fits;
    AllPack(attrs);
    AllPack(attrs[1..]);
    FitsPacks(attrs[0]);
    PackCons(attrs[0], attrs[1..]);
    assert [attrs[0]] + attrs[1..] == attrs;
  }

  lemma DecodeFront(a: Attribute, rest: Bytes, n: nat)
    requires Fits(a) && DecodeAttributes(rest, n).Some?
    ensures PackAttribute(a).Some?
    ensures DecodeAttributes(PackAttribute(a).value + rest, n + 1) ==
            Some([Content(a)] + DecodeAttributes(rest, n).value)
  {
    AttributeReadBack(a, rest);
    hide U32, FromU32, Padding, PackAttribute, Zeros;
  }

  lemma DecodeStep(attrs: seq<Attribute>, rest: Bytes)
    requires attrs != [] && forall a <- attrs :: Fits(a)
    requires PackAttributes(attrs[1..]).Some?
    requires DecodeAttributes(PackAttributes(attrs[1..]).value + rest, |attrs| - 1) == Some(Contents(attrs[1..]))
    ensures PackAttributes(attrs).Some?
    ensures DecodeAttributes(PackAttributes(attrs).value + rest, |attrs|) == Some(Contents(attrs))
  {
    hide PackAttribute, PackAttributes, DecodeAttributes, Contents, Fits, Content;
    assert attrs[0] in attrs;
    PackFront(attrs);
    var first, others := PackAttribute(attrs[0]).value, PackAttributes(attrs[1..]).value;
    DecodeFront(attrs[0], others + rest, |attrs| - 1);
    ContentsFront(attrs);
    assert (first + others) + rest == first + (others + rest);
  }

  lemma {:induction false} AttributesReadBack(attrs: seq<Attribute>, rest: Bytes)
    requires forall a <- attrs :: Fits(a)
    ensures PackAttributes(attrs).Some?
    ensures DecodeAttributes(PackAttributes(attrs).value + rest, |attrs|) == Some(Contents(attrs))
  {
    if attrs == [] {
      assert Contents(attrs) == [];
    } else {
      hide Fits;
      AttributesReadBack(attrs[1..], rest);
      hide PackAttributes, DecodeAttributes, Contents;
      DecodeStep(attrs, rest);
    }
  }

  lemma ContentsFront(attrs: seq<Attribute>)
    requires attrs != []
    ensures Contents(attrs) == [Content(attrs[0])] + Contents(attrs[1..])
  {
    hide Content;
  }

  lemma {:induction false} PackedInFours(attrs: seq<Attribute>)
    requires PackAttributes(attrs).Some?
    ensures |PackAttributes(attrs).value| % 4 == 0
  {
    if attrs != [] {
      var a := attrs[|attrs| - 1];
      PackedInFours(attrs[..|attrs| - 1]);
      AttributeReadBack(a, []);
      SumOfFours(|PackAttributes(attrs[..|attrs| - 1]).value|, |PackAttribute(a).value|);
      hide PackAttribute, U32, FromU32, Padding;
    }
  }

  lemma SumOfFours(a: nat, b: nat)
    requires a % 4 == 0 && b % 4 == 0
    ensures (a + b) % 4 == 0
  {
  }

  lemma DecodeWhole(n: nat, body: Bytes, rest: Bytes)
    requires n < WORD
    ensures Decode((Header(n) + body) + rest) == DecodeAttributes(body + rest, n)
  {
    WordReadBack(n, body + rest);
    hide DecodeAttributes, U32, FromU32;
    var b := (Header(n) + body) + rest;
    assert b[8..] == U32(n) + (body + rest) && b[12..] == body + rest && b[..8] == SIGNATURE;
  }

  // ---------- the settings ----------

  /** The attributes under the names, in the order of the names. */
  function InOrder(attributes: map<string, Attribute>, order: seq<string>): (r: seq<Attribute>)
    requires forall name <- order :: name in attributes
    ensures |r| == |order|
  {
    seq(|order|, i requires 0 <= i < |order| => attributes[order[i]])
  }

  /** The whole representation: signature, number of attributes, attributes. */
  function Packed(attrs: seq<Attribute>): Option<Bytes>
    requires |attrs| < WORD
  {
    var body := PackAttributes(attrs);
    if body.Some? then Some(Header(|attrs|) + body.value) else None
  }

  class Settings {
    var attributes: map<string, Attribute>

    constructor ()
      ensures attributes == map["tftp_server_ip" := Attribute(1, None), "kernel_args" := Attribute(2, None),
                                "bootfile" := Attribute(3, None), "argsfile" := Attribute(4, None)]
    {
      attributes := map["tftp_server_ip" := Attribute(1, None), "kernel_args" := Attribute(2, None),
                        "bootfile" := Attribute(3, None), "argsfile" := Attribute(4, None)];
    }

    /** ok is false where the name is a KeyError. */
    method SetItem(name: string, value: Bytes) returns (ok: bool)
      modifies this
      ensures ok == (name in old(attributes))
      ensures attributes == if ok then old(attributes)[name := old(attributes)[name].(value := Some(value))]
              else old(attributes)
    {
      ok := name in attributes;
      if ok {
        attributes := attributes[name := attributes[name].(value := Some(value))];
      }
    }

    /** pack, for any order in which the dict yields its names. */
    method Pack(order: seq<string>) returns (r: Option<Bytes>)
      requires Distinct(order) && Elements(order) == attributes.Keys
      requires |order| < WORD
      ensures r == Packed(InOrder(attributes, order))
    {
      assert forall name <- order :: name in attributes by {
        assert forall name <- order :: name in Elements(order);
      }
      r := PackItems(InOrder(attributes, order));
    }
  }

  /** The loop of pack over the items of the dict. */
  method PackItems(items: seq<Attribute>) returns (r: Option<Bytes>)
    requires |items| < WORD
    ensures r == Packed(items)
  {
    hide PackAttribute, U32, Header;
    var value := Header(|items|);
    ghost var body: Bytes := [];
    for i := 0 to |items|
      invariant PackAttributes(items[..i]) == Some(body) && value == Header(|items|) + body
    {
      PackNext(items, i);
      var packed := PackAttribute(items[i]);
      if packed == None {
        SomeTooLong(items, i);
        return None;
      }
      assert (Header(|items|) + body) + packed.value == Header(|items|) + (body + packed.value);
      value, body := value + packed.value, body + packed.value;
    }
    assert items[..|items|] == items;
    return Some(value);
  }

  lemma {:induction false} SomeTooLong(attrs: seq<Attribute>, i: nat)
    requires i < |attrs| && PackAttribute(attrs[i]) == None
    ensures PackAttributes(attrs) == None
    decreases |attrs|
  {
    if i < |attrs| - 1 {
      SomeTooLong(attrs[..|attrs| - 1], i);
    }
  }

  /** Whatever order the names come in and whatever follows, decoding gives back every code and value
      (an unset one as an empty one), and the length is a multiple of four. */
  lemma SettingsReadBack(attributes: map<string, Attribute>, order: seq<string>, rest: Bytes)
    requires |order| < WORD && Elements(order) == attributes.Keys
    requires forall name <- order :: name in attributes && Fits(attributes[name])
    ensures var packed := Packed(InOrder(attributes, order));
            && packed.Some? && |packed.value| % 4 == 0
            && Decode(packed.value + rest) == Some(Contents(InOrder(attributes, order)))
  {
    hide PackAttributes, DecodeAttributes, Decode, Contents, U32, FromU32, Fits;
    var attrs := InOrder(attributes, order);
    forall a <- attrs ensures Fits(a) {
      var i :| 0 <= i < |attrs| && attrs[i] == a;
      assert order[i] in order;
    }
    AttributesReadBack(attrs, rest);
    DecodeWhole(|order|, PackAttributes(attrs).value, rest);
    PackedInFours(attrs);
    SumOfFours(12, |PackAttributes(attrs).value|);
    hide InOrder, Header;
  }

  // ---------- areas of an image ----------

  datatype Area = Area(offset: nat, size: nat)

  /** data[from:to], where both are cut to the length of the data. */
  function Slice(data: Bytes, from: nat, to: nat): Bytes {
    if from <= to <= |data| then data[from..to] else if from <= |data| && from <= to then data[from..] else []
  }

  function Padded(value: Bytes, size: nat): (r: Bytes)
    requires |value| <= size
    ensures |r| == size
  {
    value + Zeros(size - |value|)
  }

  function Written(data: Bytes, area: Area, value: Bytes): Bytes
    requires |value| <= area.size
  {
    Slice(data, 0, area.offset) + Padded(value, area.size) + Slice(data, area.offset + area.size, |data|)
  }

  predicate Inside(area: Area, n: nat) {
    area.offset + area.size <= n
  }

  predicate Apart(a: Area, b: Area) {
    a.offset + a.size <= b.offset || b.offset + b.size <= a.offset
  }

  function Get(data: Bytes, area: Area): Bytes {
    Slice(data, area.offset, area.offset + area.size)
  }

  datatype Outcome = Done | KeyError | ValueError

  class Image {
    const areas: map<string, Area>
    var data: Bytes

    constructor (data: Bytes, areas: map<string, Area>)
      ensures this.data == data && this.areas == areas
    {
      this.data, this.areas := data, areas;
    }

    method SetItem(key: string, value: Bytes) returns (r: Outcome)
      modifies this
      ensures r == (if key !in areas then KeyError else if |value| > areas[key].size then ValueError else Done)
      ensures data == if r == Done then Written(old(data), areas[key], value) else old(data)
    {
      if key !in areas {
        return KeyError;
      }
      var area := areas[key];
      if |value| > area.size {
        return ValueError;
      }
      data := Slice(data, 0, area.offset) + Padded(value, area.size) + Slice(data, area.offset + area.size, |data|);
      return Done;
    }

    method GetItem(key: string) returns (r: Option<Bytes>)
      ensures r == if key in areas then Some(Get(data, areas[key])) else None
    {
      return if key in areas then Some(Slice(data, areas[key].offset, areas[key].offset + areas[key].size)) else None;
    }
  }

  /** Byte by byte: the value and then zeros, between what came before the area and what comes after;
      an area beyond the end of the image is written at its end. */
  lemma WrittenInBytes(data: Bytes, area: Area, value: Bytes)
    requires |value| <= area.size
    ensures var start := if area.offset <= |data| then area.offset else |data|;
            var after := if area.offset + area.size <= |data| then |data| - area.offset - area.size else 0;
            var b := Written(data, area, value);
            && |b| == start + area.size + after
            && (forall k :: 0 <= k < start ==> b[k] == data[k])
            && (forall k :: 0 <= k < |value| ==> b[start + k] == value[k])
            && (forall k :: start + |value| <= k < start + area.size ==> b[k] == 0)
            && (forall k :: start + area.size <= k < |b| ==> b[k] == data[k])
  {
  }

  /** Reading an area is cut off at the end of the image. */
  lemma GetInBytes(data: Bytes, area: Area)
    ensures area.offset + area.size <= |data| ==> Get(data, area) == data[area.offset..area.offset + area.size]
    ensures area.offset <= |data| < area.offset + area.size ==> Get(data, area) == data[area.offset..]
    ensures |data| < area.offset ==> Get(data, area) == []
  {
  }

  /** A write keeps the length of the image exactly if the area lies inside it, or is empty. */
  lemma LengthKept(data: Bytes, area: Area, value: Bytes)
    requires |value| <= area.size
    ensures |Written(data, area, value)| == |data| <==> Inside(area, |data|) || area.size == 0
  {
  }

  /** Writing into an area inside the image: that area reads as the padded value, and those apart
      from it as before. */
  lemma WriteThenRead(data: Bytes, area: Area, value: Bytes, other: Area)
    requires |value| <= area.size && Inside(area, |data|) && Inside(other, |data|)
    ensures Get(Written(data, area, value), area) == Padded(value, area.size)
    ensures Apart(area, other) ==> Get(Written(data, area, value), other) == Get(data, other)
  {
    var before, middle, after := data[..area.offset], Padded(value, area.size), data[area.offset + area.size..];
    assert Written(data, area, value) == before + middle + after;
    hide Padded, Written;
    var all := before + middle + after;
    assert all[area.offset..area.offset + area.size] == middle;
    if other.offset + other.size <= area.offset {
      assert all[other.offset..other.offset + other.size] == data[other.offset..other.offset + other.size];
    } else if area.offset + area.size <= other.offset {
      assert all[other.offset..other.offset + other.size] == data[other.offset..other.offset + other.size];
    }
  }

  /** Any number of writes; those that the image refuses change nothing. */
  ghost function WriteAll(data: Bytes, areas: map<string, Area>, writes: seq<(string, Bytes)>): Bytes
    decreases |writes|
  {
    if writes == [] then data
    else
      var (key, value) := writes[0];
      var data' := if key in areas && |value| <= areas[key].size then Written(data, areas[key], value) else data;
      WriteAll(data', areas, writes[1..])
  }

  /** Over any number of writes the image keeps its length, and what no write touches stays. */
  lemma {:induction false} OthersStay(data: Bytes, areas: map<string, Area>, writes: seq<(string, Bytes)>, other: Area)
    requires (forall key <- areas :: Inside(areas[key], |data|)) && Inside(other, |data|)
    requires forall w <- writes :: w.0 in areas ==> Apart(areas[w.0], other)
    ensures |WriteAll(data, areas, writes)| == |data|
    ensures Get(WriteAll(data, areas, writes), other) == Get(data, other)
    decreases |writes|
  {
    if writes != [] {
      hide Written, Get;
      var (key, value) := writes[0];
      assert writes[0] in writes;
      if key in areas && |value| <= areas[key].size {
        LengthKept(data, areas[key], value);
        WriteThenRead(data, areas[key], value, other);
        OthersStay(Written(data, areas[key], value), areas, writes[1..], other);
      } else {
        OthersStay(data, areas, writes[1..], other);
      }
    }
  }

  /** Settings that fit an area inside the image can be read back from it, also after any writes into
      areas apart from it. */
  lemma StoredSettingsReadBack(data: Bytes, areas: map<string, Area>, area: Area, attributes: map<string, Attribute>,
                               order: seq<string>, packed: Bytes, writes: seq<(string, Bytes)>)
    requires |order| < WORD && Elements(order) == attributes.Keys
    requires forall name <- order :: name in attributes && Fits(attributes[name])
    requires Packed(InOrder(attributes, order)) == Some(packed) && |packed| <= area.size && Inside(area, |data|)
    requires forall key <- areas :: Inside(areas[key], |data|)
    requires forall w <- writes :: w.0 in areas ==> Apart(areas[w.0], area)
    ensures Decode(Get(WriteAll(Written(data, area, packed), areas, writes), area)) ==
            Some(Contents(InOrder(attributes, order)))
  {
    LengthKept(data, area, packed);
    WriteThenRead(data, area, packed, area);
    OthersStay(Written(data, area, packed), areas, writes, area);
    SettingsReadBack(attributes, order, Zeros(area.size - |packed|));
  }
}
