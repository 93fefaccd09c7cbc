/** Working out where the members of a tar archive lie from what `tar tvR` says
    (gs_cache/tarfile_utils.py). */
module TarMembers {
  import opened Prelude

  // ---------- rounding ----------

  /** Python's & on integers: bit by bit, in two's complement with as many bits as it takes. */
  function And(a: int, b: int): int
    decreases if a < 0 then -a else a, if b < 0 then -b else b
  {
    if a == 0 || b == 0 then 0
    else if a == -1 then b
    else if b == -1 then a
    else 2 * And(a / 2, b / 2) + (a % 2) * (b % 2)
  }

  /** The last bit of the result is the product of the last bits, and so on for the other bits, down to
      the two numbers all of whose bits are alike. */
  lemma AndBitByBit(a: int, b: int)
    ensures And(a, b) == 2 * And(a / 2, b / 2) + if a % 2 == 1 && b % 2 == 1 then 1 else 0
    ensures And(0, 0) == And(0, -1) == And(-1, 0) == 0 && And(-1, -1) == -1
  {
    var c, d, x, y := a / 2, b / 2, a % 2, b % 2;
    assert a == 2 * c + x && b == 2 * d + y && 0 <= x < 2 && 0 <= y < 2;
    assert a == -1 ==> c == -1 && x == 1;
    assert b == -1 ==> d == -1 && y == 1;
    assert And(0, d) == And(c, 0) == 0 && And(-1, d) == d && And(c, -1) == c by { AndEnds(c, d); }
    BitProduct(x, y);
    if a != 0 && b != 0 && a != -1 && b != -1 {
      assert And(a, b) == 2 * And(c, d) + x * y;
    }
  }

  lemma AndEnds(a: int, b: int)
    ensures And(0, b) == And(a, 0) == 0 && And(-1, b) == b && And(a, -1) == a
  {
  }

  lemma BitProduct(x: int, y: int)
    requires 0 <= x < 2 && 0 <= y < 2
    ensures x * y == if x == 1 && y == 1 then 1 else 0
  {
  }

  /** A mask whose last bit is clear: what is left is masked one bit further on. */
  lemma AndHalf(n: nat, mask: int)
    requires mask < 0
    ensures And(n, 2 * mask) == 2 * And(n / 2, mask)
  {
    assert 2 * mask / 2 == mask && 2 * mask % 2 == 0;
    if n > 0 {
      assert And(n, 2 * mask) == 2 * And(n / 2, mask) + n % 2 * (2 * mask % 2);
    }
  }

  lemma AndAll(n: nat)
    ensures And(n, -1) == n
  {
  }

  /** Dividing by 512 is halving nine times. */
  lemma NineHalves(n: nat)
    ensures n / 2 / 2 / 2 / 2 / 2 / 2 / 2 / 2 / 2 == n / 512
  {
    var c := n / 2 / 2 / 2;
    var f := c / 2 / 2 / 2;
    assert c == n / 8;
    assert f == c / 8;
    assert f / 2 / 2 / 2 == f / 8;
    EightsTwice(n);
    EightsTwice(n / 8);
  }

  lemma EightsTwice(n: nat)
    ensures n / 8 / 8 == n / 64 && n / 64 / 8 == n / 512
  {
  }

  /** The mask -512 clears the last nine bits. */
  lemma MaskClears(n: nat)
    ensures And(n, -512) == 512 * (n / 512)
  {
    hide And;
    var a := n / 2;
    var b := a / 2;
    var c := b / 2;
    var d := c / 2;
    var e := d / 2;
    var f := e / 2;
    var g := f / 2;
    var h := g / 2;
    AndHalf(n, -256);
    AndHalf(a, -128);
    AndHalf(b, -64);
    AndHalf(c, -32);
    AndHalf(d, -16);
    AndHalf(e, -8);
    AndHalf(f, -4);
    AndHalf(g, -2);
    AndHalf(h, -1);
    AndAll(h / 2);
    NineHalves(n);
  }

  /** _round_up_to_512 */
  function RoundUp(n: nat): int {
    And(n + 511, -512)
  }

  /** It is the least multiple of 512 that is not below n. */
  lemma RoundUpIsLeast(n: nat, m: nat)
    ensures RoundUp(n) % 512 == 0 && n <= RoundUp(n) < n + 512
    ensures m % 512 == 0 && n <= m ==> RoundUp(n) <= m
  {
    MaskClears(n + 511);
    hide And;
    var q := (n + 511) / 512;
    assert 512 * q % 512 == 0;
    if m % 512 == 0 && n <= m {
      Below(n, m, q);
    }
  }

  lemma Below(n: nat, m: nat, q: nat)
    requires m % 512 == 0 && n <= m && 512 * q <= n + 511
    ensures 512 * q <= m
  {
  }

  /** One line of the listing; the last line, for the block of NULs, has no size. */
  datatype Line = Line(block: nat, size: Option<nat>, filename: string)

  datatype MemberInfo = MemberInfo(filename: string, recordStart: nat, recordSize: int, contentStart: int, size: nat)

  function InfoOf(prev: Line, cur: Line): MemberInfo
    requires prev.size.Some?
  {
    MemberInfo(prev.filename, prev.block * 512, cur.block * 512 - prev.block * 512,
               cur.block * 512 - RoundUp(prev.size.value), prev.size.value)
  }

  ghost predicate ListedAt(lines: seq<Line>, members: seq<MemberInfo>, i: nat)
    requires i < |members|
  {
    i + 1 < |lines| && lines[i].size.Some? && members[i] == InfoOf(lines[i], lines[i + 1])
  }

  /** list_tar_members: the members yielded; ok is false when a line other than the last has no size. */
  method ListTarMembers(lines: seq<Line>) returns (ok: bool, members: seq<MemberInfo>)
    ensures ok <==> forall i :: 0 <= i < |lines| - 1 ==> lines[i].size.Some?
    ensures ok ==> |members| == if lines == [] then 0 else |lines| - 1
    ensures forall i :: 0 <= i < |members| ==> ListedAt(lines, members, i)
  {
    members := [];
    if lines == [] {
      return true, members;
    }
    var prev := lines[0];
    for i := 1 to |lines|
      invariant prev == lines[i - 1] && |members| == i - 1
      invariant forall j :: 0 <= j < i - 1 ==> lines[j].size.Some? && ListedAt(lines, members, j)
    {
      var cur := lines[i];
      if prev.size == None {
        return false, members;
      }
      members := members + [InfoOf(prev, cur)];
      prev := cur;
    }
    return true, members;
  }

  // ---------- archives ----------

  /** A member of an archive: a header of some blocks, and contents padded to whole blocks. */
  datatype Member = Member(filename: string, headerBlocks: nat, size: nat)

  ghost function Blocks(m: Member): nat {
    RoundUpIsLeast(m.size, 0);
    m.headerBlocks + RoundUp(m.size) / 512
  }

  /** The block at which the i-th member starts, if the first starts at `first`. */
  ghost function StartOf(archive: seq<Member>, first: nat, i: nat): nat
    requires i <= |archive|
  {
    if i == 0 then first else StartOf(archive, first, i - 1) + Blocks(archive[i - 1])
  }

  /** What `tar tvR` says of the archive. */
  ghost predicate IsListing(archive: seq<Member>, first: nat, lines: seq<Line>) {
    && |lines| == |archive| + 1
    && (forall i :: 0 <= i < |archive| ==>
        lines[i] == Line(StartOf(archive, first, i), Some(archive[i].size), archive[i].filename))
    && lines[|archive|].block == StartOf(archive, first, |archive|)
  }

  lemma {:induction false} StartsAscend(archive: seq<Member>, first: nat, i: nat, j: nat)
    requires i <= j <= |archive|
    ensures StartOf(archive, first, i) <= StartOf(archive, first, j)
    decreases j
  {
    if i < j {
      StartsAscend(archive, first, i, j - 1);
    }
  }

  lemma BlocksInBytes(m: Member)
    ensures 512 * Blocks(m) == 512 * m.headerBlocks + RoundUp(m.size)
  {
    RoundUpIsLeast(m.size, 0);
  }

  lemma InfoOfMember(m: Member, start: nat, cur: Line)
    requires cur.block == start + Blocks(m)
    ensures var info := InfoOf(Line(start, Some(m.size), m.filename), cur);
            && info.filename == m.filename && info.size == m.size
            && info.recordStart == 512 * start && info.recordSize == 512 * Blocks(m)
            && info.contentStart == info.recordStart + 512 * m.headerBlocks
            && info.contentStart + m.size <= info.recordStart + info.recordSize < info.contentStart + m.size + 512
  {
    RoundUpIsLeast(m.size, 0);
    BlocksInBytes(m);
    hide RoundUp, Blocks;
  }

  /** Every member is listed with its name and size, where its record starts and how long it is, and
      where its contents start, right after its header; and its record ends where the next starts. */
  lemma ListingIsTrue(archive: seq<Member>, first: nat, lines: seq<Line>, i: nat)
    requires IsListing(archive, first, lines) && i < |archive|
    ensures lines[i].size.Some?
    ensures var info := InfoOf(lines[i], lines[i + 1]); var m := archive[i];
            && info.filename == m.filename && info.size == m.size
            && info.recordStart == 512 * StartOf(archive, first, i)
            && info.recordSize == 512 * Blocks(m)
            && info.contentStart == info.recordStart + 512 * m.headerBlocks
            && info.contentStart + m.size <= info.recordStart + info.recordSize < info.contentStart + m.size + 512
  {
    hide RoundUp, Blocks, InfoOf;
    assert lines[i + 1].block == StartOf(archive, first, i) + Blocks(archive[i]);
    InfoOfMember(archive[i], StartOf(archive, first, i), lines[i + 1]);
  }

  lemma EndOfRecord(archive: seq<Member>, first: nat, lines: seq<Line>, i: nat)
    requires IsListing(archive, first, lines) && i < |archive|
    ensures lines[i].size.Some?
    ensures var info := InfoOf(lines[i], lines[i + 1]);
            info.recordStart == 512 * StartOf(archive, first, i)
                && info.recordStart + info.recordSize == 512 * StartOf(archive, first, i + 1)
  {
    hide RoundUp, StartOf;
    assert lines[i + 1].block == StartOf(archive, first, i + 1);
  }

  /** No two members share a byte. */
  lemma RecordsApart(archive: seq<Member>, first: nat, lines: seq<Line>, i: nat, j: nat)
    requires IsListing(archive, first, lines) && i < j < |archive|
    ensures lines[i].size.Some? && lines[j].size.Some?
    ensures var a, b := InfoOf(lines[i], lines[i + 1]), InfoOf(lines[j], lines[j + 1]);
            a.recordStart + a.recordSize <= b.recordStart
  {
    hide RoundUp, Blocks, StartOf, InfoOf;
    StartsAscend(archive, first, i + 1, j);
    EndOfRecord(archive, first, lines, i);
    EndOfRecord(archive, first, lines, j);
  }

  ghost predicate Holds(info: MemberInfo, p: nat) {
    info.recordStart <= p < info.recordStart + info.recordSize
  }

  lemma InRecord(archive: seq<Member>, first: nat, lines: seq<Line>, i: nat, p: nat)
    requires IsListing(archive, first, lines) && i < |archive|
    requires 512 * StartOf(archive, first, i) <= p < 512 * StartOf(archive, first, i + 1)
    ensures lines[i].size.Some? && Holds(InfoOf(lines[i], lines[i + 1]), p)
  {
    hide RoundUp, Blocks, StartOf, InfoOf, And;
    EndOfRecord(archive, first, lines, i);
  }

  /** The records cover the span of the archive without gap: every byte of it is in a record. */
  lemma {:induction false} RecordsTile(archive: seq<Member>, first: nat, lines: seq<Line>, n: nat, p: nat)
    returns (i: nat)
    requires IsListing(archive, first, lines) && n <= |archive|
    requires 512 * first <= p < 512 * StartOf(archive, first, n)
    ensures i < n && lines[i].size.Some? && Holds(InfoOf(lines[i], lines[i + 1]), p)
  {
    hide RoundUp, Blocks, InfoOf, And, IsListing, Holds;
    assert StartOf(archive, first, 0) == first;
    hide StartOf;
    if p < 512 * StartOf(archive, first, n - 1) {
      i := RecordsTile(archive, first, lines, n - 1, p);
    } else {
      i := n - 1;
      InRecord(archive, first, lines, i, p);
    }
  }
}
