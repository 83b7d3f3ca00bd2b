/** The initramfs archive: a writer of the "newc" cpio format, and a reader to hold it against. Bytes are
    characters; names are ASCII. */
module Cpio {
  import opened Options
  import opened Sequences
  import opened Numerals

  const MAGIC: string := "070701"
  const TRAILER: string := "TRAILER!!!"
  const HEADER_SIZE: nat := 110
  const LIMIT: nat := 0x1_0000_0000

  datatype Entry = Entry(name: string, mode: nat, uid: nat, gid: nat, nlink: nat, mtime: nat, data: string,
                         rdevMajor: nat, rdevMinor: nat)

  const END := Entry(TRAILER, 0, 0, 0, 1, 0, "", 0, 0)

  // ---- writing

  function Nuls(k: nat): (s: string)
    ensures |s| == k && forall i | 0 <= i < k :: s[i] == '\0'
  {
    if k == 0 then "" else Nuls(k - 1) + "\0"
  }

  /** The length of the padding that brings `n` to a multiple of `unit`. */
  function Gap(n: nat, unit: nat): (k: nat)
    requires unit in {4, 512}
    ensures k < unit && (n + k) % unit == 0
  {
    GapCloses(n);
    if n % unit == 0 then 0 else unit - n % unit
  }

  lemma GapCloses(n: nat)
    ensures n % 4 != 0 ==> (n + (4 - n % 4)) % 4 == 0
    ensures n % 512 != 0 ==> (n + (512 - n % 512)) % 512 == 0
  {
    Multiple4(n / 4 + 1);
    Multiple512(n / 512 + 1);
  }

  lemma Multiple4(k: nat)
    ensures 4 * k % 4 == 0
  {
  }

  lemma Multiple512(k: nat)
    ensures 512 * k % 512 == 0
  {
  }

  lemma SumAligned(m: nat, n: nat)
    requires m % 4 == 0 && n % 4 == 0
    ensures (m + n) % 4 == 0
  {
  }

  function Padded(s: string, unit: nat): (r: string)
    requires unit in {4, 512}
    ensures |r| % unit == 0 && s <= r && |r| < |s| + unit
    ensures forall i | |s| <= i < |r| :: r[i] == '\0'
  {
    s + Nuls(Gap(|s|, unit))
  }

  function HexFields(fields: seq<nat>): string {
    if fields == [] then "" else PaddedHex(fields[0], 8) + HexFields(fields[1..])
  }

  function FieldsOf(ino: nat, e: Entry): seq<nat> {
    [ino, e.mode, e.uid, e.gid, e.nlink, e.mtime, |e.data|, 0, 0, e.rdevMajor, e.rdevMinor, |e.name| + 1, 0]
  }

  function Header(ino: nat, e: Entry): string {
    MAGIC + HexFields(FieldsOf(ino, e))
  }

  function Written(ino: nat, e: Entry): (s: string)
    ensures |s| % 4 == 0
  {
    Padded(Header(ino, e) + (e.name + "\0"), 4) + Padded(e.data, 4)
  }

  function WrittenAll(ino: nat, entries: seq<Entry>): string
    decreases |entries|
  {
    if entries == [] then "" else Written(ino, entries[0]) + WrittenAll(ino + 1, entries[1..])
  }

  function Archive(entries: seq<Entry>): (s: string)
    ensures |s| % 512 == 0
  {
    Padded(WrittenAll(1, entries + [END]), 512)
  }

  class CpioWriter {
    var buf: string
    var inoCounter: nat
    ghost var entries: seq<Entry>

    ghost predicate Valid()
      reads this
    {
      buf == WrittenAll(1, entries) && inoCounter == |entries| + 1
    }

    constructor ()
      ensures Valid() && entries == []
    {
      buf, inoCounter, entries := "", 1, [];
    }

    method Pad(unit: nat)
      requires unit in {4, 512}
      modifies this`buf
      ensures buf == Padded(old(buf), unit)
    {
      ghost var k := 0;
      assert buf + Nuls(0) == buf;
      while |buf| % unit != 0
        invariant 0 <= k <= Gap(|old(buf)|, unit) && buf == old(buf) + Nuls(k)
        decreases Gap(|old(buf)|, unit) - k
      {
        GapIsFirst(|old(buf)|, k, unit);
        Associative(old(buf), Nuls(k), "\0");
        buf := buf + "\0";
        k := k + 1;
      }
      GapIsFirst(|old(buf)|, k, unit);
    }

    /** Appends to an aligned buffer and pads. */
    method Append(s: string)
      requires |buf| % 4 == 0
      modifies this`buf
      ensures buf == old(buf) + Padded(s, 4)
    {
      PaddedAfter(buf, s);
      buf := buf + s;
      Pad(4);
    }

    method Add(e: Entry)
      requires Valid()
      modifies this
      ensures Valid() && entries == old(entries) + [e]
    {
      hide HexFields, Padded, PaddedHex, WrittenAll;
      var namesize := |e.name| + 1;
      var filesize := |e.data|;
      var hdr := MAGIC + HexFields([inoCounter, e.mode, e.uid, e.gid, e.nlink, e.mtime, filesize, 0, 0,
                                    e.rdevMajor, e.rdevMinor, namesize, 0]);
      ghost var before := buf;
      Aligned(1, entries);
      Append(hdr + (e.name + "\0"));
      ghost var first := Padded(hdr + (e.name + "\0"), 4);
      SumAligned(|before|, |first|);
      if e.data != "" {
        Append(e.data);
      } else {
        PaddedEmpty();
      }
      Associative(before, first, Padded(e.data, 4));
      WrittenAppend(1, entries, [e]);
      WrittenOne(inoCounter, e);
      inoCounter := inoCounter + 1;
      entries := entries + [e];
    }

    method Finish() returns (result: string)
      requires Valid()
      modifies this
      ensures result == Archive(old(entries))
    {
      Add(END);
      Pad(512);
      result := buf;
    }
  }

  lemma GapIsFirst(n: nat, k: nat, unit: nat)
    requires unit in {4, 512} && k <= Gap(n, unit)
    ensures (n + k) % unit == 0 <==> k == Gap(n, unit)
  {
    if unit == 4 {
      NotYet4(n / 4, n % 4, k);
    } else {
      NotYet512(n / 512, n % 512, k);
    }
  }

  lemma NotYet4(q: nat, r: nat, k: nat)
    requires r < 4 && (r == 0 ==> k == 0) && (r > 0 ==> k <= 4 - r)
    ensures (4 * q + r + k) % 4 == 0 <==> r == 0 || k == 4 - r
  {
    if r > 0 && k == 4 - r { Multiple4(q + 1); }
  }

  lemma NotYet512(q: nat, r: nat, k: nat)
    requires r < 512 && (r == 0 ==> k == 0) && (r > 0 ==> k <= 512 - r)
    ensures (512 * q + r + k) % 512 == 0 <==> r == 0 || k == 512 - r
  {
    if r > 0 && k == 512 - r { Multiple512(q + 1); }
  }

  lemma PaddedEmpty()
    ensures Padded("", 4) == ""
  {
  }

  lemma PaddedAfter(before: string, s: string)
    requires |before| % 4 == 0
    ensures Padded(before + s, 4) == before + Padded(s, 4)
  {
    assert Gap(|before + s|, 4) == Gap(|s|, 4);
    Associative(before, s, Nuls(Gap(|s|, 4)));
  }

  lemma {:induction false} Aligned(ino: nat, entries: seq<Entry>)
    ensures |WrittenAll(ino, entries)| % 4 == 0
    decreases |entries|
  {
    hide Written;
    if entries != [] {
      Aligned(ino + 1, entries[1..]);
      SumAligned(|Written(ino, entries[0])|, |WrittenAll(ino + 1, entries[1..])|);
    }
  }

  lemma {:induction false} WrittenAppend(ino: nat, a: seq<Entry>, b: seq<Entry>)
    ensures WrittenAll(ino, a + b) == WrittenAll(ino, a) + WrittenAll(ino + |a|, b)
    decreases |a|
  {
    hide Written;
    if a == [] {
      assert a + b == b;
    } else {
      assert (a + b)[1..] == a[1..] + b;
      WrittenAppend(ino + 1, a[1..], b);
      Associative(Written(ino, a[0]), WrittenAll(ino + 1, a[1..]), WrittenAll(ino + |a|, b));
    }
  }

  lemma WrittenOne(ino: nat, e: Entry)
    ensures WrittenAll(ino, [e]) == Written(ino, e)
  {
    hide Written;
    assert [e][1..] == [];
  }

  // ---- reading

  function ReadFields(s: string, k: nat): Option<seq<nat>>
    decreases k
  {
    if k == 0 then Some([])
    else if |s| < 8 || !AllDigits(s[..8], 16) then None
    else
      var more :- ReadFields(s[8..], k - 1);
      Some([Value(s[..8], 16)] + more)
  }

  /** The first `n` bytes, and the rest after the padding that follows them at a multiple of four. */
  function TakePadded(s: string, n: nat): Option<(string, string)> {
    if |s| < n + Gap(n, 4) then None else Some((s[..n], s[n + Gap(n, 4)..]))
  }

  function ReadName(s: string, namesize: nat): Option<string> {
    if namesize == 0 || |s| != namesize || s[namesize - 1] != '\0' || '\0' in s[..namesize - 1] then None
    else Some(s[..namesize - 1])
  }

  /** An entry at the front of an archive, its inode number, and the rest. */
  function ReadEntry(s: string): Option<(nat, Entry, string)> {
    if !(MAGIC <= s) then None
    else
      var f :- ReadFields(s[6..], 13);
      if |f| != 13 then None
      else
        var (head, rest) :- TakePadded(s, HEADER_SIZE + f[11]);
        var name :- ReadName(head[HEADER_SIZE..], f[11]);
        var (data, last) :- TakePadded(rest, f[6]);
        Some((f[0], Entry(name, f[1], f[2], f[3], f[4], f[5], data, f[9], f[10]), last))
  }

  /** The entries before the trailer, with their inode numbers. */
  function ReadArchive(s: string): Option<seq<(nat, Entry)>>
    decreases |s|
  {
    var (ino, e, rest) :- ReadEntry(s);
    if e.name == TRAILER then Some([])
    else if |rest| >= |s| then None
    else
      var more :- ReadArchive(rest);
      Some([(ino, e)] + more)
  }

  // ---- round trip

  ghost predicate Fits(e: Entry) {
    && e.mode < LIMIT && e.uid < LIMIT && e.gid < LIMIT && e.nlink < LIMIT && e.mtime < LIMIT
    && |e.data| < LIMIT && e.rdevMajor < LIMIT && e.rdevMinor < LIMIT && |e.name| + 1 < LIMIT
    && '\0' !in e.name
  }

  lemma Power16Of8()
    ensures Power16(8) == LIMIT
  {
    assert Power16(4) == 0x1_0000;
  }

  lemma HexField(n: nat)
    ensures |PaddedHex(n, 8)| == 8 <==> n < LIMIT
  {
    HexWidth(n, 8);
    Power16Of8();
  }

  lemma {:induction false} FieldsRoundTrip(fields: seq<nat>, rest: string)
    requires forall i | 0 <= i < |fields| :: fields[i] < LIMIT
    ensures |HexFields(fields)| == 8 * |fields|
    ensures ReadFields(HexFields(fields) + rest, |fields|) == Some(fields)
    decreases |fields|
  {
    if fields != [] {
      var h, more := PaddedHex(fields[0], 8), HexFields(fields[1..]);
      HexField(fields[0]);
      PaddedHexValue(fields[0], 8);
      FieldsRoundTrip(fields[1..], rest);
      Associative(h, more, rest);
      FrontField(h, more + rest, |fields|);
      assert fields == [fields[0]] + fields[1..];
    }
  }

  lemma FrontField(h: string, rest: string, k: nat)
    requires |h| == 8 && AllDigits(h, 16) && k > 0
    ensures ReadFields(h + rest, k)
         == if ReadFields(rest, k - 1).None? then None
            else Some([Value(h, 16)] + ReadFields(rest, k - 1).value)
  {
    assert (h + rest)[..8] == h && (h + rest)[8..] == rest;
  }

  lemma TakePaddedFront(s: string, rest: string)
    ensures TakePadded(Padded(s, 4) + rest, |s|) == Some((s, rest))
  {
    var p := Padded(s, 4);
    assert (p + rest)[..|s|] == s && (p + rest)[|s| + Gap(|s|, 4)..] == rest;
  }

  lemma HeaderSize(ino: nat, e: Entry)
    requires ino < LIMIT && Fits(e)
    ensures |Header(ino, e)| == HEADER_SIZE
  {
    FieldsRoundTrip(FieldsOf(ino, e), "");
  }

  lemma NameRoundTrip(name: string)
    requires '\0' !in name
    ensures ReadName(name + "\0", |name| + 1) == Some(name)
  {
    assert (name + "\0")[..|name|] == name;
  }

  /** The header fields of a written entry, whatever follows them. */
  lemma HeaderReads(ino: nat, e: Entry, rest: string)
    requires ino < LIMIT && Fits(e)
    ensures var s := Header(ino, e) + rest;
      MAGIC <= s && ReadFields(s[6..], 13) == Some(FieldsOf(ino, e))
  {
    hide HexFields, ReadFields, PaddedHex;
    var h := HexFields(FieldsOf(ino, e));
    FieldsRoundTrip(FieldsOf(ino, e), rest);
    assert (Header(ino, e) + rest)[6..] == h + rest;
  }

  /** A written entry is read back, and the reader stands at what follows it. */
  lemma EntryRoundTrip(ino: nat, e: Entry, rest: string)
    requires ino < LIMIT && Fits(e)
    ensures ReadEntry(Written(ino, e) + rest) == Some((ino, e, rest))
  {
    hide HexFields, PaddedHex, TakePadded, ReadName, ReadFields;
    var header, name := Header(ino, e), e.name + "\0";
    var first, second := Padded(header + name, 4), Padded(e.data, 4);
    var s := Written(ino, e) + rest;
    Associative(first, second, rest);
    HeaderSize(ino, e);
    var gap := Nuls(Gap(|header + name|, 4));
    FrontOf(header, name, gap, second + rest);
    HeaderReads(ino, e, name + (gap + (second + rest)));
    TakePaddedFront(header + name, second + rest);
    TakePaddedFront(e.data, rest);
    NameRoundTrip(e.name);
    assert (header + name)[HEADER_SIZE..] == name;
  }

  lemma FrontOf(header: string, name: string, gap: string, rest: string)
    ensures (header + name + gap) + rest == header + (name + (gap + rest))
  {
  }

  function Numbered(ino: nat, entries: seq<Entry>): seq<(nat, Entry)>
    decreases |entries|
  {
    if entries == [] then [] else [(ino, entries[0])] + Numbered(ino + 1, entries[1..])
  }

  /** A newc reader recovers the entries in order, numbered from one. */
  lemma {:induction false} EntriesRoundTrip(ino: nat, entries: seq<Entry>, padding: string)
    requires ino + |entries| < LIMIT
    requires forall i | 0 <= i < |entries| :: Fits(entries[i]) && entries[i].name != TRAILER
    ensures ReadArchive(WrittenAll(ino, entries + [END]) + padding)
         == Some(Numbered(ino, entries))
    decreases |entries|
  {
    hide Written, ReadEntry;
    var all := entries + [END];
    var rest := WrittenAll(ino + 1, all[1..]) + padding;
    Associative(Written(ino, all[0]), WrittenAll(ino + 1, all[1..]), padding);
    if entries == [] {
      EndFits();
      EntryRoundTrip(ino, END, rest);
    } else {
      assert all[1..] == entries[1..] + [END];
      EntryRoundTrip(ino, entries[0], rest);
      EntriesRoundTrip(ino + 1, entries[1..], padding);
      WrittenNotEmpty(ino, entries[0]);
    }
  }

  lemma EndFits()
    ensures Fits(END) && END.name == TRAILER
  {
  }

  lemma WrittenNotEmpty(ino: nat, e: Entry)
    ensures |Written(ino, e)| > 0
  {
    hide HexFields;
    assert |Header(ino, e)| >= 6;
  }

  lemma ArchiveRoundTrip(entries: seq<Entry>)
    requires |entries| + 1 < LIMIT
    requires forall i | 0 <= i < |entries| :: Fits(entries[i]) && entries[i].name != TRAILER
    ensures ReadArchive(Archive(entries))
         == Some(Numbered(1, entries))
  {
    hide WrittenAll, ReadArchive;
    var s := WrittenAll(1, entries + [END]);
    EntriesRoundTrip(1, entries, Nuls(Gap(|s|, 512)));
  }

  /** Every header stands at a multiple of four. */
  lemma HeadersAligned(before: seq<Entry>, e: Entry, after: seq<Entry>)
    ensures var offset := |WrittenAll(1, before)|;
      var header := Header(1 + |before|, e);
      && offset % 4 == 0
      && offset + |header| <= |Archive(before + [e] + after)|
      && Archive(before + [e] + after)[offset..offset + |header|] == header
  {
    hide WrittenAll, Written, Header, Padded;
    Aligned(1, before);
    Around(before, e, after);
    HeaderFirst(1 + |before|, e);
    InsidePrefix(WrittenAll(1, before), Written(1 + |before|, e), WrittenAll(2 + |before|, after + [END]),
                 Header(1 + |before|, e), Archive(before + [e] + after));
  }

  lemma Around(before: seq<Entry>, e: Entry, after: seq<Entry>)
    ensures WrittenAll(1, before) + (Written(1 + |before|, e) + WrittenAll(2 + |before|, after + [END]))
         <= Archive(before + [e] + after)
  {
    hide WrittenAll, Written, Nuls, Gap;
    Associative(before + [e], after, [END]);
    Associative(before, [e], after + [END]);
    WrittenAppend(1, before, [e] + (after + [END]));
    WrittenAppend(1 + |before|, [e], after + [END]);
    WrittenOne(1 + |before|, e);
  }

  lemma HeaderFirst(ino: nat, e: Entry)
    ensures Header(ino, e) <= Written(ino, e)
  {
    hide HexFields;
  }

  lemma InsidePrefix(a: string, b: string, c: string, h: string, all: string)
    requires h <= b && a + (b + c) <= all
    ensures |a| + |h| <= |all| && all[|a|..|a| + |h|] == h
  {
  }

  /** Behind the entries stands the trailer with the next number, and behind it only NUL bytes, fewer than 512. */
  lemma ArchiveEnds(entries: seq<Entry>)
    requires |entries| + 1 < LIMIT
    ensures var at := |WrittenAll(1, entries)|;
      && at <= |Archive(entries)| && ReadEntry(Archive(entries)[at..]).Some?
      && var (ino, e, rest) := ReadEntry(Archive(entries)[at..]).value;
         && ino == |entries| + 1 && e == Entry("TRAILER!!!", 0, 0, 0, 1, 0, "", 0, 0)
         && |rest| < 512 && forall i | 0 <= i < |rest| :: rest[i] == '\0'
  {
    hide WrittenAll, Written, ReadEntry, Nuls, Gap;
    var s := WrittenAll(1, entries + [END]);
    var rest := Nuls(Gap(|s|, 512));
    WrittenAppend(1, entries, [END]);
    WrittenOne(1 + |entries|, END);
    Associative(WrittenAll(1, entries), Written(1 + |entries|, END), rest);
    DropFirst(WrittenAll(1, entries), Written(1 + |entries|, END) + rest);
    EndFits();
    EntryRoundTrip(1 + |entries|, END, rest);
  }

  lemma DropFirst(a: string, b: string)
    ensures (a + b)[|a|..] == b
  {
  }
}
