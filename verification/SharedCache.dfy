/** The string cache that the compiler processes share (contrib/roafteriniter/cache.h).

    A mapped cache is a fixed-size buffer that holds NUL-terminated strings back to back,
    followed by zeros.  The abstract value of a buffer is the sequence `items` of the strings
    in it, and every operation is specified on that sequence. */
module SharedCache {
  import opened Prelude

  const NUL: char := '\0'

  // sizeof(struct cachehdr): two packed 64-bit words
  const HEADER := 16

  const PAGE := 0x1000

  // the size that cachereader.c maps
  const READER_PAGES := 50

  const TWO_TO_THE_64 := 0x1_0000_0000_0000_0000

  /** What a cache operation reports.  `Overrun` is not a code of the original: it stands for a
      scan that leaves the mapping, whose outcome C does not define. */
  datatype Outcome =
    | InsertionSuccess
    | InsertionFailed
    | ContainsSuccess
    | ContainsFailed
    | Overrun

  ghost predicate IsCString(s: string) {
    NUL !in s
  }

  ghost predicate IsItem(s: string) {
    s != "" && IsCString(s)
  }

  // ---------- the byte layout ----------

  /** The bytes of a sequence of strings: each string followed by its terminator. */
  ghost function Flatten(items: seq<string>): seq<char> {
    if items == [] then [] else items[0] + [NUL] + Flatten(items[1..])
  }

  lemma {:induction false} FlattenAppend(xs: seq<string>, ys: seq<string>)
    ensures Flatten(xs + ys) == Flatten(xs) + Flatten(ys)
  {
    if xs == [] {
      assert xs + ys == ys;
    } else {
      FlattenAppend(xs[1..], ys);
      assert (xs + ys)[1..] == xs[1..] + ys;
    }
  }

  lemma FlattenOne(s: string)
    ensures Flatten([s]) == s + [NUL]
  {
    assert [s][1..] == [];
  }

  /** The layout loses nothing: a buffer determines the strings in it. */
  lemma {:induction false} FlattenInjective(xs: seq<string>, ys: seq<string>, n: nat, m: nat)
    requires forall x <- xs :: IsItem(x)
    requires forall y <- ys :: IsItem(y)
    requires Flatten(xs) + seq(n, _ => NUL) == Flatten(ys) + seq(m, _ => NUL)
    ensures xs == ys
  {
    var left, right := Flatten(xs) + seq(n, _ => NUL), Flatten(ys) + seq(m, _ => NUL);
    if xs != [] {
      assert xs[0] in xs && left[0] == xs[0][0] && xs[0][0] in xs[0];
    }
    if ys != [] {
      assert ys[0] in ys && right[0] == ys[0][0] && ys[0][0] in ys[0];
    }
    if xs != [] && ys != [] {
      var x, y := xs[0], ys[0];
      assert left == x + ([NUL] + Flatten(xs[1..]) + seq(n, _ => NUL));
      assert right == y + ([NUL] + Flatten(ys[1..]) + seq(m, _ => NUL));
      FirstTerminator(left, x, [NUL] + Flatten(xs[1..]) + seq(n, _ => NUL), y,
                      [NUL] + Flatten(ys[1..]) + seq(m, _ => NUL));
      var k := |x| + 1;
      assert left[k..] == Flatten(xs[1..]) + seq(n, _ => NUL);
      assert right[k..] == Flatten(ys[1..]) + seq(m, _ => NUL);
      FlattenInjective(xs[1..], ys[1..], n, m);
      assert xs == [x] + xs[1..] && ys == [y] + ys[1..];
    }
  }

  lemma FirstTerminator(b: seq<char>, x: string, xrest: seq<char>, y: string, yrest: seq<char>)
    requires IsCString(x) && IsCString(y)
    requires |xrest| > 0 && xrest[0] == NUL && |yrest| > 0 && yrest[0] == NUL
    requires b == x + xrest && b == y + yrest
    ensures x == y
  {
    assert b[|x|] == xrest[0] && b[|y|] == yrest[0];
    assert forall i :: 0 <= i < |x| ==> b[i] == x[i] && x[i] in x;
    assert forall i :: 0 <= i < |y| ==> b[i] == y[i] && y[i] in y;
    assert |x| == |y|;
    assert x == b[..|x|] && y == b[..|y|];
  }

  /** The bytes up to the first terminator are the string that was written there. */
  lemma StringFound(b: seq<char>, x: string, rest: seq<char>, n: nat)
    requires b == x + ([NUL] + rest) && IsCString(x)
    requires n <= |b| && NUL !in b[..n] && (n < |b| ==> b[n] == NUL)
    ensures n == |x| && b[..n] == x
  {
    assert b[|x|] == NUL;
    assert forall i :: 0 <= i < n ==> b[i] == b[..n][i] && b[..n][i] in b[..n];
    assert forall i :: 0 <= i < |x| ==> b[i] == x[i] && x[i] in x;
    assert n == |x|;
  }

  // ---------- the space a set of strings takes ----------

  ghost function Bytes(items: seq<string>): nat {
    if items == [] then 0 else |items[0]| + 1 + Bytes(items[1..])
  }

  lemma {:induction false} FlattenLength(items: seq<string>)
    ensures |Flatten(items)| == Bytes(items)
  {
    if items != [] {
      FlattenLength(items[1..]);
    }
  }

  lemma {:induction false} BytesAppend(xs: seq<string>, ys: seq<string>)
    ensures Bytes(xs + ys) == Bytes(xs) + Bytes(ys)
  {
    if xs == [] {
      assert xs + ys == ys;
    } else {
      BytesAppend(xs[1..], ys);
      assert (xs + ys)[1..] == xs[1..] + ys;
    }
  }

  /** Distinct strings drawn from a vocabulary take no more room than the whole vocabulary. */
  lemma {:induction false} BytesOfDistinct(items: seq<string>, vocabulary: seq<string>)
    requires Distinct(items)
    requires forall x <- items :: x in vocabulary
    ensures Bytes(items) <= Bytes(vocabulary)
  {
    if items != [] {
      var x := items[0];
      assert x in items;
      var i :| 0 <= i < |vocabulary| && vocabulary[i] == x;
      var rest := vocabulary[..i] + vocabulary[i + 1..];
      forall y <- items[1..] ensures y in rest {
        var j :| 0 <= j < |items[1..]| && items[1..][j] == y;
        assert items[j + 1] == y && y in items && y != x;
        assert vocabulary == vocabulary[..i] + [x] + vocabulary[i + 1..];
      }
      BytesOfDistinct(items[1..], rest);
      assert vocabulary == vocabulary[..i] + ([x] + vocabulary[i + 1..]);
      BytesAppend(vocabulary[..i], [x] + vocabulary[i + 1..]);
      BytesAppend(vocabulary[..i], vocabulary[i + 1..]);
      assert ([x] + vocabulary[i + 1..])[1..] == vocabulary[i + 1..];
    }
  }

  // ---------- the mapped cache ----------

  class Cache {
    const base: nat              // the address of the mapping
    const size: nat              // its size, header included
    const data: array<char>      // the bytes after the header
    var length: nat              // hdr->length
    var count: nat               // hdr->count
    ghost var items: seq<string> // the abstract value

    ghost predicate Valid()
      reads this, data
    {
      && HEADER <= size && base + size < TWO_TO_THE_64
      && data.Length == size - HEADER
      && length <= data.Length
      && data[..length] == Flatten(items)
      && (forall i :: length <= i < data.Length ==> data[i] == NUL)
      && count == |items|
      && (forall s <- items :: IsItem(s))
    }

    /** Creating the backing file: it is extended to `size` bytes and cleared. */
    constructor (base: nat, size: nat)
      requires HEADER <= size && base + size < TWO_TO_THE_64
      ensures Valid() && fresh(data)
      ensures items == [] && this.size == size
    {
      this.base := base;
      this.size := size;
      data := new char[size - HEADER](_ => NUL);
      length := 0;
      count := 0;
      items := [];
    }

    /** strlen from offset p; the buffer's end is reported instead of running past it. */
    method StrLen(p: nat) returns (n: nat)
      requires p <= data.Length
      ensures p + n <= data.Length
      ensures NUL !in data[p..p + n]
      ensures p + n < data.Length ==> data[p + n] == NUL
    {
      n := 0;
      while p + n < data.Length && data[p + n] != NUL
        invariant p + n <= data.Length
        invariant NUL !in data[p..p + n]
      {
        assert data[p..p + n + 1] == data[p..p + n] + [data[p + n]];
        n := n + 1;
      }
    }

    /** _cache_contains: walks the strings up to the first empty one.  It answers by membership,
        and it leaves the buffer exactly when the string is absent and no byte is to spare. */
    method Contains(item: string) returns (r: Outcome)
      requires Valid() && IsCString(item)
      ensures r == ContainsSuccess <==> item in items
      ensures r == Overrun <==> item !in items && length == data.Length
      ensures r == ContainsFailed <==> item !in items && length < data.Length
    {
      var ptr := 0;
      ghost var k := 0;
      while ptr < data.Length && data[ptr] != NUL
        invariant 0 <= k <= |items|
        invariant ptr == Bytes(items[..k]) <= length
        invariant item !in items[..k]
        decreases data.Length - ptr
      {
        var n := StrLen(ptr);
        ItemAt(k, ptr, n);
        if data[ptr..ptr + n] == item {
          return ContainsSuccess;
        }
        assert items[..k + 1] == items[..k] + [items[k]];
        BytesAppend(items[..k], [items[k]]);
        BytesPrefix(k + 1);
        ptr := ptr + n + 1;
        k := k + 1;
      }
      Boundary(k, ptr);
      return if ptr == data.Length then Overrun else ContainsFailed;
    }

    lemma BytesPrefix(k: nat)
      requires Valid() && k <= |items|
      ensures Bytes(items[..k]) <= length
    {
      assert items == items[..k] + items[k..];
      BytesAppend(items[..k], items[k..]);
      FlattenLength(items);
    }

    /** At a string boundary, the string found there is the next item. */
    lemma ItemAt(k: nat, ptr: nat, n: nat)
      requires Valid()
      requires k <= |items| && ptr == Bytes(items[..k])
      requires ptr < data.Length && data[ptr] != NUL
      requires ptr + n <= data.Length && NUL !in data[ptr..ptr + n]
      requires ptr + n < data.Length ==> data[ptr + n] == NUL
      ensures k < |items| && data[ptr..ptr + n] == items[k] && n == |items[k]|
    {
      Boundary(k, ptr);
      Split(k, ptr);
      var x := items[k];
      assert x in items && items[k..][0] == x && items[k..][1..] == items[k + 1..];
      var tail := data[ptr..];
      var rest := Flatten(items[k + 1..]) + data[length..];
      assert tail == data[ptr..length] + data[length..];
      assert tail == x + ([NUL] + rest);
      assert data[ptr..ptr + n] == tail[..n];
      StringFound(tail, x, rest, n);
    }

    lemma Split(k: nat, ptr: nat)
      requires Valid() && k <= |items| && ptr == Bytes(items[..k])
      ensures ptr <= length && data[ptr..length] == Flatten(items[k..])
    {
      assert items == items[..k] + items[k..];
      FlattenAppend(items[..k], items[k..]);
      FlattenLength(items[..k]);
      assert data[ptr..length] == data[..length][ptr..];
    }

    /** A string boundary before the last is a non-zero byte; the last one is `length`. */
    lemma Boundary(k: nat, ptr: nat)
      requires Valid() && k <= |items| && ptr == Bytes(items[..k])
      ensures if k < |items| then ptr < length && data[ptr] != NUL else ptr == length && items[..k] == items
    {
      Split(k, ptr);
      if k < |items| {
        var x := items[k];
        assert x in items && items[k..][0] == x && x[0] in x;
        assert data[ptr..length][0] == x[0];
      } else {
        assert items[..k] == items;
        FlattenLength(items);
      }
    }

    /** cache_debug_traverse, as cachereader runs it over a mapping of its own size: the strings that
        are printed.  The scan stays inside exactly if the end of the contents, and the zero byte
        there, lies in the mapping as well as in the file. */
    method Traverse(mapped: nat) returns (inside: bool, out: seq<string>)
      requires Valid() && HEADER <= mapped
      ensures inside <==> HEADER + length < mapped && length < data.Length
      ensures if inside then out == items else out <= items
    {
      var limit := if mapped - HEADER < data.Length then mapped - HEADER else data.Length;
      var ptr := 0;
      out := [];
      while ptr < limit && data[ptr] != NUL
        invariant |out| <= |items| && out == items[..|out|]
        invariant ptr == Bytes(items[..|out|]) <= length
        decreases limit - ptr
      {
        var n := StrLen(ptr);
        ghost var k := |out|;
        ItemAt(k, ptr, n);
        assert items[..k + 1] == items[..k] + [items[k]];
        BytesAppend(items[..k], [items[k]]);
        BytesPrefix(k + 1);
        if ptr + n >= limit {
          return false, out;
        }
        out := out + [data[ptr..ptr + n]];
        ptr := ptr + n + 1;
      }
      Boundary(|out|, ptr);
      inside := ptr < limit;
    }

    /** _cache_insert: appends the string if it is not empty and fits.  No terminator is copied;
        the zero tail provides it.  The addresses are 64-bit words that may wrap. */
    method Insert(str: string) returns (r: Outcome)
      requires Valid() && IsCString(str)
      requires size + |str| + 1 < TWO_TO_THE_64 // the string lies in the same address space
      modifies this`length, this`count, this`items, data
      ensures Valid()
      ensures r == if str != "" && HEADER + old(length) + |str| + 1 <= size then InsertionSuccess else InsertionFailed
      ensures items == if r == InsertionSuccess then old(items) + [str] else old(items)
      ensures length == if r == InsertionSuccess then old(length) + |str| + 1 else old(length)
    {
      if |str| == 0 {
        return InsertionFailed;
      }
      hide Flatten;
      var ptr := base + HEADER + length;
      var copyend := (ptr + |str| + 1) % TWO_TO_THE_64;
      var copystart := base;
      if copyend < copystart || copyend - copystart > size {
        return InsertionFailed;
      }
      var i := 0;
      while i < |str|
        invariant 0 <= i <= |str| && length + |str| < data.Length
        invariant items == old(items) && length == old(length) && count == old(count)
        invariant data[..length] == Flatten(items)
        invariant data[length..length + i] == str[..i]
        invariant forall j :: length + i <= j < data.Length ==> data[j] == NUL
      {
        data[length + i] := str[i];
        i := i + 1;
      }
      assert data[..length + |str| + 1] == Flatten(items) + (str + [NUL]) by {
        assert data[..length + |str| + 1] == data[..length] + data[length..length + |str|] + [data[length + |str|]];
      }
      FlattenAppend(items, [str]);
      FlattenOne(str);
      length := length + |str| + 1;
      count := count + 1;
      items := items + [str];
      return InsertionSuccess;
    }

    /** cache_notcontains_insert: the test-and-set on which stage 1 rests. */
    method NotContainsInsert(item: string) returns (r: Outcome)
      requires Valid() && IsCString(item)
      requires size + |item| + 1 < TWO_TO_THE_64
      modifies this`length, this`count, this`items, data
      ensures Valid()
      ensures r == ContainsSuccess <==> item in old(items)
      ensures r == InsertionSuccess <==>
                item !in old(items) && item != "" && HEADER + old(length) + |item| + 1 <= size
      ensures r == Overrun <==> item !in old(items) && HEADER + old(length) == size
      ensures r != ContainsFailed
      ensures items == if r == InsertionSuccess then old(items) + [item] else old(items)
      ensures old(Distinct(items)) ==> Distinct(items)
    {
      r := Contains(item);
      if r == ContainsFailed {
        r := Insert(item);
      }
    }
  }

  /** The files that processes map.  Processes that map one name share one cache object. */
  class FileSystem {
    var files: map<string, Cache>

    /** cache_map with the system calls succeeding: an existing file keeps what it holds, whatever its
        size and that of the mapping, and only a new one is cleared. */
    method Map(fname: string, base: nat, size: nat) returns (ok: bool, c: Cache?)
      requires base + size < TWO_TO_THE_64
      modifies this`files
      ensures ok <==> size != 0 && size % PAGE == 0
      ensures !ok ==> files == old(files) && c == null
      ensures ok ==> c != null && files == old(files)[fname := c]
      ensures ok && fname in old(files) ==> c == old(files)[fname] && unchanged(c, c.data)
      ensures ok && fname !in old(files) ==> fresh(c) && c.Valid() && c.items == [] && c.size == size
    {
      if size == 0 || size % PAGE != 0 {
        return false, null;
      }
      if fname in files {
        c := files[fname];
        assert files == files[fname := c];
      } else {
        c := new Cache(base, size);
        files := files[fname := c];
      }
      ok := true;
    }

    /** cachereader: maps the file, with 50 pages, and prints what it holds.  The file may have been
        created with another size; nothing of it changes. */
    method Read(fname: string, base: nat) returns (inside: bool, out: seq<string>)
      requires base + READER_PAGES * PAGE < TWO_TO_THE_64
      requires fname in files ==> files[fname].Valid()
      modifies this`files
      ensures fname in old(files) ==>
                var c := old(files)[fname];
                && files == old(files) && unchanged(c, c.data)
                && (inside <==> HEADER + c.length < READER_PAGES * PAGE && c.length < c.data.Length)
                && if inside then out == c.items else out <= c.items
      ensures fname !in old(files) ==> inside && out == []
    {
      var ok, c := Map(fname, base, READER_PAGES * PAGE);
      inside, out := c.Traverse(READER_PAGES * PAGE);
    }
  }

  /** A cache of one page that one string fills: the next lookup of another string leaves it. */
  method FillWholePage() returns (r: Outcome)
    ensures r == Overrun
  {
    var c := new Cache(0, PAGE);
    var filler := seq(PAGE - HEADER - 1, _ => 'a');
    assert filler[0] == 'a';
    var inserted := c.Insert(filler);
    assert inserted == InsertionSuccess;
    r := c.Contains("b");
  }
}
