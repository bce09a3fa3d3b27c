/**
 The compiled in zone database: the deduplicated blob and the fixed width index
 that `tzdata.py` writes, and the lookup that reads them.
 */
module ZoneTable {
  import opened Common
  import opened HexText

  const NAME_WIDTH := 32
  const START_WIDTH := 6
  const LENGTH_WIDTH := 4
  const RECORD := 42
  const PAD: char := '!'

  // --- names ---------------------------------------------------------------------------------

  predicate ValidChar(c: char) { PAD < c <= '~' }

  predicate ValidName(name: string) {
    |name| <= NAME_WIDTH && forall i :: 0 <= i < |name| ==> ValidChar(name[i])
  }

  /** Python's `ljust`. */
  function Pad(name: string, width: nat): (p: string)
    ensures |p| == if |name| >= width then |name| else width
    ensures |name| <= width ==> forall i :: 0 <= i < width ==> p[i] == if i < |name| then name[i] else PAD
    decreases width - |name|
  {
    if |name| >= width then name else Pad(name + [PAD], width)
  }

  /** The first place two strings of one length differ decides their order. */
  lemma {:induction false} FirstDifference(a: string, b: string, i: nat)
    requires |a| == |b| && i < |a| && a[..i] == b[..i] && a[i] < b[i]
    ensures Before(a, b) && !AtMost(b, a)
  {
    if i > 0 {
      assert a[0] == a[..i][0] && b[0] == b[..i][0];
      assert a[1..][..i - 1] == a[..i][1..] && b[1..][..i - 1] == b[..i][1..];
      FirstDifference(a[1..], b[1..], i - 1);
    }
  }

  /** Padding keeps names apart and in order. */
  lemma {:induction false} PadOrder(a: string, b: string, width: nat)
    requires |a| <= width && |b| <= width
    requires (forall i :: 0 <= i < |a| ==> ValidChar(a[i])) && (forall i :: 0 <= i < |b| ==> ValidChar(b[i]))
    ensures Before(a, b) <==> Before(Pad(a, width), Pad(b, width))
    ensures Pad(a, width) == Pad(b, width) <==> a == b
  {
    if a == [] || b == [] {
      if b != [] { FirstDifference(Pad(a, width), Pad(b, width), 0); }
      if a != [] { FirstDifference(Pad(b, width), Pad(a, width), 0); }
      if a == [] && b != [] { assert Pad(b, width)[0] != Pad(a, width)[0]; }
      if a != [] && b == [] { assert Pad(b, width)[0] != Pad(a, width)[0]; }
    } else {
      PadTail(a, width);
      PadTail(b, width);
      PadOrder(a[1..], b[1..], width - 1);
      assert a == [a[0]] + a[1..] && b == [b[0]] + b[1..];
    }
  }

  lemma {:induction false} PadTail(a: string, width: nat)
    requires 0 < |a| <= width
    ensures Pad(a, width) == [a[0]] + Pad(a[1..], width - 1)
  {
  }

  // --- numbers ----------------------------------------------------------------------------------

  function Pow16(n: nat): (r: nat)
    ensures r >= 1
  {
    if n == 0 then 1 else 16 * Pow16(n - 1)
  }

  /** Python's `f"{v:0{width}x}"`, which writes more digits when the width does not hold the number. */
  function HexNumber(v: nat, width: nat): (text: string)
    ensures |text| >= width
    decreases v + width
  {
    if v == 0 && width == 0 then []
    else HexNumber(v / 16, if width == 0 then 0 else width - 1) + [HexDigit(v % 16)]
  }

  /** `_nibble` */
  function Nibble(c: char): int {
    if c >= 'a' then c as int - 'a' as int + 10 else c as int - '0' as int
  }

  function NumberOf(text: string): int {
    if text == [] then 0 else NumberOf(text[..|text| - 1]) * 16 + Nibble(text[|text| - 1])
  }

  lemma {:induction false} HexWidth(v: nat, width: nat)
    ensures |HexNumber(v, width)| == width <==> v < Pow16(width)
    decreases v + width
  {
    if v != 0 || width != 0 { HexWidth(v / 16, if width == 0 then 0 else width - 1); }
  }

  lemma {:induction false} DigitsBack(v: nat, width: nat)
    ensures NumberOf(HexNumber(v, width)) == v
    decreases v + width
  {
    if v != 0 || width != 0 {
      var less := if width == 0 then 0 else width - 1;
      var text := HexNumber(v, width);
      assert text[..|text| - 1] == HexNumber(v / 16, less);
      DigitsBack(v / 16, less);
      NibbleBack(v % 16);
    }
  }

  /** The first digits of a number are less than the number. */
  lemma {:induction false} FrontLess(v: nat, width: nat, k: nat)
    requires k < |HexNumber(v, width)|
    ensures 0 <= NumberOf(HexNumber(v, width)[..k]) <= v && (v > 0 ==> NumberOf(HexNumber(v, width)[..k]) < v)
    decreases v + width
  {
    var less := if width == 0 then 0 else width - 1;
    var text := HexNumber(v, width);
    var init := HexNumber(v / 16, less);
    assert text[..|text| - 1] == init;
    if k == |text| - 1 {
      DigitsBack(v / 16, less);
    } else {
      assert text[..k] == init[..k];
      FrontLess(v / 16, less, k);
    }
  }

  /** What a field of this width gives back of a number: the number, exactly when it fits. */
  lemma {:induction false} NumberBack(v: nat, width: nat)
    ensures NumberOf(HexNumber(v, width)[..width]) == v <==> v < Pow16(width)
  {
    var text := HexNumber(v, width);
    HexWidth(v, width);
    DigitsBack(v, width);
    if |text| == width {
      assert text[..width] == text;
    } else {
      FrontLess(v, width, width);
      assert v > 0 by { PowPositive(width); }
    }
  }

  lemma {:induction false} PowPositive(n: nat)
    ensures 0 < Pow16(n)
  {
  }

  /** `_number` */
  method Number(index: string, at: nat, width: nat) returns (out: int)
    requires at + width <= |index|
    ensures out == NumberOf(index[at..at + width])
  {
    out := 0;
    for i := at to at + width
      invariant out == NumberOf(index[at..i])
    {
      assert index[at..i + 1][..i - at] == index[at..i];
      out := out * 16 + Nibble(index[i]);
    }
  }

  /** `_file` */
  method FileAt(text: string, start: nat, length: nat, ghost blob: seq<Byte>) returns (out: seq<Byte>)
    requires text == Hex(blob) && start + length <= |blob|
    ensures out == blob[start..start + length]
  {
    out := [];
    var i := start * 2;
    while i < (start + length) * 2
      invariant start * 2 <= i <= (start + length) * 2 && i % 2 == 0
      invariant out == blob[start..i / 2]
      decreases (start + length) * 2 - i
    {
      ghost var k := i / 2;
      HexAt(blob, k);
      NibbleBack(blob[k] / 16);
      NibbleBack(blob[k] % 16);
      out := out + [Nibble(text[i]) * 16 + Nibble(text[i + 1])];
      i := i + 2;
    }
  }

  lemma {:induction false} NibbleBack(n: int)
    requires IsNibble(n)
    ensures Nibble(HexDigit(n)) == n
  {
  }

  // --- the generator: reading the archive ----------------------------------------------------------

  type Archive = map<string, seq<Byte>>

  datatype Place = Place(start: nat, length: nat)

  /** What the generator makes of an archive, or the name it will not have. */
  datatype Reading = Read(blob: seq<Byte>, index: map<string, Place>) | TooLong(name: string) | BadName(name: string)

  /** Where a file is in the blob. */
  predicate IsAt(blob: seq<Byte>, p: Place, file: seq<Byte>) {
    p.length == |file| && p.start + p.length <= |blob| && blob[p.start..p.start + p.length] == file
  }

  function Flat(files: seq<seq<Byte>>): seq<Byte> {
    if files == [] then [] else Flat(files[..|files| - 1]) + files[|files| - 1]
  }

  /** The blob is the files seen, each once, and every one of them is where `at` says. */
  ghost predicate Stored(blob: seq<Byte>, at: map<seq<Byte>, nat>, files: seq<seq<Byte>>) {
    && blob == Flat(files) && Distinct(files)
    && (forall f :: f in files <==> f in at)
    && (forall f :: f in at ==> IsAt(blob, Place(at[f], |f|), f))
    && Starts(at, files)
  }

  /** A file starts where the files met before it end. */
  ghost predicate Starts(at: map<seq<Byte>, nat>, files: seq<seq<Byte>>) {
    forall k :: 0 <= k < |files| ==> files[k] in at && at[files[k]] == |Flat(files[..k])|
  }

  lemma {:induction false} StartsNext(at: map<seq<Byte>, nat>, files: seq<seq<Byte>>, file: seq<Byte>)
    requires Starts(at, files) && file !in at
    ensures Starts(at[file := |Flat(files)|], files + [file])
  {
    hide Flat;
    var now, more := at[file := |Flat(files)|], files + [file];
    forall k | 0 <= k < |more| ensures more[k] in now && now[more[k]] == |Flat(more[..k])| {
      assert more[..k] == files[..k];
      if k == |files| { assert files[..k] == files; } else { assert more[k] == files[k] && files[k] in at; }
    }
  }

  lemma {:induction false} SameContent(blob: seq<Byte>, p: Place, a: seq<Byte>, b: seq<Byte>)
    requires IsAt(blob, p, a) && IsAt(blob, p, b)
    ensures a == b
  {
  }

  lemma {:induction false} IsAtLonger(blob: seq<Byte>, more: seq<Byte>, p: Place, file: seq<Byte>)
    requires IsAt(blob, p, file)
    ensures IsAt(blob + more, p, file)
  {
    assert (blob + more)[p.start..p.start + p.length] == blob[p.start..p.start + p.length];
  }

  lemma {:induction false} IsAtEnd(blob: seq<Byte>, file: seq<Byte>)
    ensures IsAt(blob + file, Place(|blob|, |file|), file)
  {
    assert (blob + file)[|blob|..|blob| + |file|] == file;
  }

  lemma {:induction false} FlatNext(files: seq<seq<Byte>>, file: seq<Byte>)
    requires Distinct(files) && file !in files
    ensures Flat(files + [file]) == Flat(files) + file && Distinct(files + [file])
  {
    assert (files + [file])[..|files|] == files;
  }

  lemma {:induction false} StoredNext(blob: seq<Byte>, at: map<seq<Byte>, nat>, files: seq<seq<Byte>>, file: seq<Byte>)
    requires Stored(blob, at, files) && file !in at
    ensures Stored(blob + file, at[file := |blob|], files + [file])
  {
    hide Starts, Flat, IsAt;
    FlatNext(files, file);
    IsAtEnd(blob, file);
    var now := at[file := |blob|];
    forall f | f in now ensures IsAt(blob + file, Place(now[f], |f|), f) {
      if f != file { IsAtLonger(blob, file, Place(at[f], |f|), f); }
    }
    StartsNext(at, files, file);
  }

  /** Every name seen so far has the place of its own file. */
  ghost predicate Indexed(archive: Archive, index: map<string, Place>, at: map<seq<Byte>, nat>, names: seq<string>) {
    && (forall n :: n in index <==> n in names)
    && forall n :: n in index ==> IndexedAt(archive, index, at, n)
  }

  ghost predicate IndexedAt(archive: Archive, index: map<string, Place>, at: map<seq<Byte>, nat>, n: string)
    requires n in index
  {
    n in archive && archive[n] in at && index[n] == Place(at[archive[n]], |archive[n]|)
  }

  lemma {:induction false} IndexedNext(archive: Archive, index: map<string, Place>, at: map<seq<Byte>, nat>,
                                       names: seq<string>,
                    name: string)
    requires Indexed(archive, index, at, names) && name in archive && archive[name] in at
    ensures Indexed(archive, index[name := Place(at[archive[name]], |archive[name]|)], at, names + [name])
  {
    var now := index[name := Place(at[archive[name]], |archive[name]|)];
    forall n | n in now ensures IndexedAt(archive, now, at, n) { assert n == name || IndexedAt(archive, index, at, n); }
  }

  lemma {:induction false} IndexedLater(archive: Archive, index: map<string, Place>, at: map<seq<Byte>, nat>,
                                        names: seq<string>,
                     more: map<seq<Byte>, nat>)
    requires Indexed(archive, index, at, names) && forall f :: f in at ==> f in more && more[f] == at[f]
    ensures Indexed(archive, index, more, names)
  {
    forall n | n in index ensures IndexedAt(archive, index, more, n) { assert IndexedAt(archive, index, at, n); }
  }

  /** What holds of the result: every name's file is where its place says, and nothing is stored twice. */
  ghost predicate Faithful(archive: Archive, blob: seq<Byte>, index: map<string, Place>) {
    && index.Keys == archive.Keys
    && (forall n :: n in index ==> IsAt(blob, index[n], archive[n]))
    && (forall m, n :: m in index && n in index ==> (index[m] == index[n] <==> archive[m] == archive[n]))
  }

  lemma {:induction false} StoredFaithful(archive: Archive, blob: seq<Byte>, index: map<string, Place>,
                                          at: map<seq<Byte>, nat>,
                       files: seq<seq<Byte>>, names: seq<string>)
    requires Stored(blob, at, files) && Indexed(archive, index, at, names) && forall n :: n in names <==> n in archive
    ensures Faithful(archive, blob, index)
  {
    hide Starts, Flat, Distinct;
    forall n | n in index ensures IsAt(blob, index[n], archive[n]) { assert IndexedAt(archive, index, at, n); }
    forall m, n | m in index && n in index ensures index[m] == index[n] <==> archive[m] == archive[n] {
      assert IndexedAt(archive, index, at, m) && IndexedAt(archive, index, at, n);
      if index[m] == index[n] { SameContent(blob, index[m], archive[m], archive[n]); }
    }
  }

  /** The two checks on a name. */
  method CheckName(name: string) returns (r: Option<Reading>)
    ensures r.None? <==> ValidName(name)
    ensures r.Some? ==> r.value.TooLong? || r.value.BadName?
  {
    if |name| > NAME_WIDTH { return Some(TooLong(name)); }
    for i := 0 to |name|
      invariant forall j :: 0 <= j < i ==> ValidChar(name[j])
    {
      if !(PAD < name[i] <= '~') { return Some(BadName(name)); }
    }
    return None;
  }

  /** One file of the archive: stored if it is new. */
  method Keep(data: seq<Byte>, blob: seq<Byte>, at: map<seq<Byte>, nat>, ghost files: seq<seq<Byte>>)
    returns (blob': seq<Byte>, at': map<seq<Byte>, nat>, ghost files': seq<seq<Byte>>)
    requires Stored(blob, at, files)
    ensures Stored(blob', at', files') && at'.Keys == at.Keys + {data}
    ensures files' == if data in files then files else files + [data]
    ensures forall f :: f in at ==> at'[f] == at[f]
  {
    hide Flat, Distinct, IsAt, Starts;
    blob', at', files' := blob, at, files;
    if data !in at {
      StoredNext(blob, at, files, data);
      files' := files + [data];
      at' := at[data := |blob|];
      blob' := blob + data;
    }
  }

  /** The distinct files in the order they are first met. */
  function FirstMet(archive: Archive, names: seq<string>): seq<seq<Byte>>
    requires forall n :: n in names ==> n in archive
  {
    if names == [] then []
    else
      var before, file := FirstMet(archive, names[..|names| - 1]), archive[names[|names| - 1]];
      if file in before then before else before + [file]
  }

  /** The last name's file is new, or it was met before. */
  lemma {:induction false} MetNext(archive: Archive, names: seq<string>, name: string)
    requires name in archive && forall n :: n in names ==> n in archive
    ensures FirstMet(archive, names + [name]) ==
      if archive[name] in FirstMet(archive, names) then FirstMet(archive, names)
      else FirstMet(archive, names) + [archive[name]]
  {
    assert (names + [name])[..|names|] == names;
  }

  function FilesOf(archive: Archive, names: seq<string>): set<seq<Byte>>
    requires forall n :: n in names ==> n in archive
  {
    set n | n in names :: archive[n]
  }

  lemma {:induction false} FilesNext(archive: Archive, names: seq<string>, name: string)
    requires name in archive && forall n :: n in names ==> n in archive
    ensures FilesOf(archive, names + [name]) == FilesOf(archive, names) + {archive[name]}
  {
    assert name in names + [name];
  }

  lemma {:induction false} AllFiles(archive: Archive, names: seq<string>)
    requires forall n :: n in names <==> n in archive
    ensures FilesOf(archive, names) == archive.Values
  {
    forall f | f in archive.Values ensures f in FilesOf(archive, names) { var n :| n in archive && archive[n] == f; }
  }

  /** What the loop has done when it has seen `names`. */
  ghost predicate Seen(archive: Archive, names: seq<string>, blob: seq<Byte>, at: map<seq<Byte>, nat>,
                       index: map<string, Place>, files: seq<seq<Byte>>) {
    && (forall n :: n in names ==> n in archive)
    && Stored(blob, at, files) && Indexed(archive, index, at, names) && at.Keys == FilesOf(archive, names)
    && files == FirstMet(archive, names)
  }

  /** One turn of the loop: the file kept, and the name given its place. */
  method AddName(archive: Archive, name: string, blob: seq<Byte>, at: map<seq<Byte>, nat>, index: map<string, Place>,
                 ghost names: seq<string>, ghost files: seq<seq<Byte>>)
    returns (blob': seq<Byte>, at': map<seq<Byte>, nat>, index': map<string, Place>, ghost files': seq<seq<Byte>>)
    requires Seen(archive, names, blob, at, index, files) && name in archive
    ensures Seen(archive, names + [name], blob', at', index', files')
  {
    var data := archive[name];
    blob', at', files' := Keep(data, blob, at, files);
    FilesNext(archive, names, name);
    MetNext(archive, names, name);
    IndexedLater(archive, index, at, names, at');
    IndexedNext(archive, index, at', names, name);
    index' := index[name := Place(at'[data], |data|)];
  }

  /** A name's file starts where the files met before it end. */
  ghost predicate Placed(archive: Archive, index: map<string, Place>, files: seq<seq<Byte>>) {
    && (forall n :: n in index ==> n in archive)
    && forall n, k :: n in index && 0 <= k < |files| && files[k] == archive[n] ==> index[n].start == |Flat(files[..k])|
  }

  lemma {:induction false} SeenAll(archive: Archive, names: seq<string>, blob: seq<Byte>, at: map<seq<Byte>, nat>,
                index: map<string, Place>, files: seq<seq<Byte>>)
    requires Seen(archive, names, blob, at, index, files) && forall n :: n in names <==> n in archive
    ensures Faithful(archive, blob, index)
    ensures blob == Flat(files) && Distinct(files) && forall f :: f in files <==> f in archive.Values
    ensures Placed(archive, index, files) && files == FirstMet(archive, names)
  {
    forall n, k | n in index && 0 <= k < |files| && files[k] == archive[n]
      ensures index[n].start == |Flat(files[..k])|
    {
      assert IndexedAt(archive, index, at, n);
    }
    StoredFaithful(archive, blob, index, at, files, names);
    AllFiles(archive, names);
  }

  ghost predicate AllValid(names: seq<string>) {
    forall j :: 0 <= j < |names| ==> ValidName(names[j])
  }

  lemma {:induction false} AllValidNext(names: seq<string>, name: string)
    ensures AllValid(names + [name]) <==> AllValid(names) && ValidName(name)
  {
    var more := names + [name];
    if AllValid(more) {
      assert more[|names|] == name;
      forall j | 0 <= j < |names| ensures ValidName(names[j]) { assert more[j] == names[j]; }
    }
  }

  lemma {:induction false} AllValidMeans(archive: Archive, names: seq<string>)
    requires forall n :: n in names <==> n in archive
    ensures AllValid(names) <==> forall n :: n in archive ==> ValidName(n)
  {
    if AllValid(names) {
      forall n | n in archive ensures ValidName(n) { var j :| 0 <= j < |names| && names[j] == n; }
    }
  }

  lemma {:induction false} InvalidPrefix(names: seq<string>, i: nat)
    requires i < |names| && !ValidName(names[i])
    ensures !AllValid(names)
  {
  }

  lemma {:induction false} SeenNone(archive: Archive)
    ensures Seen(archive, [], [], map[], map[], []) && AllValid([])
  {
    var at: map<seq<Byte>, nat> := map[];
    assert at.Keys == FilesOf(archive, []);
    assert Distinct<seq<Byte>>([]) && Starts(at, []) && Flat([]) == [];
    assert Indexed(archive, map[], at, []);
    assert FirstMet(archive, []) == [];
    assert Seen(archive, [], [], at, map[], []);
  }

  /** `read`, over the names of the archive in order. */
  method ReadArchive(archive: Archive, names: seq<string>) returns (r: Reading, ghost files: seq<seq<Byte>>)
    requires forall n :: n in names <==> n in archive
    ensures r.Read? <==> AllValid(names)
    ensures r.Read? ==> Faithful(archive, r.blob, r.index)
    ensures r.Read? ==> r.blob == Flat(files) && Distinct(files) && forall f :: f in files <==> f in archive.Values
    ensures r.Read? ==> files == FirstMet(archive, names) && Placed(archive, r.index, files)
  {
    hide Seen, Flat, FirstMet, Faithful, Placed, AllValid;
    var blob: seq<Byte>, at: map<seq<Byte>, nat>, index: map<string, Place> := [], map[], map[];
    files := [];
    SeenNone(archive);
    for i := 0 to |names|
      invariant Seen(archive, names[..i], blob, at, index, files)
      invariant AllValid(names[..i])
    {
      var name := names[i];
      assert name in names && names[..i + 1] == names[..i] + [name];
      AllValidNext(names[..i], name);
      var bad := CheckName(name);
      if bad.Some? {
        InvalidPrefix(names, i);
        return bad.value, files;
      }
      blob, at, index, files := AddName(archive, name, blob, at, index, names[..i], files);
    }
    assert names[..|names|] == names;
    SeenAll(archive, names, blob, at, index, files);
    r := Read(blob, index);
  }

  // --- the index ------------------------------------------------------------------------------------

  /** One record: the padded name, where its file starts, and how long it is. */
  function RecordOf(name: string, p: Place): (text: string)
    requires |name| <= NAME_WIDTH
    ensures |text| >= RECORD
  {
    Pad(name, NAME_WIDTH) + HexNumber(p.start, START_WIDTH) + HexNumber(p.length, LENGTH_WIDTH)
  }

  predicate PlaceFits(p: Place) { p.start < Pow16(START_WIDTH) && p.length < Pow16(LENGTH_WIDTH) }

  lemma {:induction false} RecordWidth(name: string, p: Place)
    requires |name| <= NAME_WIDTH
    ensures |RecordOf(name, p)| == RECORD <==> PlaceFits(p)
  {
    HexWidth(p.start, START_WIDTH);
    HexWidth(p.length, LENGTH_WIDTH);
  }

  /** The records of some names, end to end. */
  function Records(names: seq<string>, index: map<string, Place>): (text: string)
    requires forall i :: 0 <= i < |names| ==> |names[i]| <= NAME_WIDTH && names[i] in index
    ensures |text| >= RECORD * |names|
  {
    if names == [] then []
    else
      Records(names[..|names| - 1], index) + RecordOf(names[|names| - 1], index[names[|names| - 1]])
  }

  /** The records are all of one width exactly when every number fits its field. */
  lemma {:induction false} RecordsWidth(names: seq<string>, index: map<string, Place>)
    requires forall i :: 0 <= i < |names| ==> |names[i]| <= NAME_WIDTH && names[i] in index
    ensures |Records(names, index)| == RECORD * |names| <==> forall i :: 0 <= i < |names| ==> PlaceFits(index[names[i]])
  {
    hide RecordOf, PlaceFits;
    if names != [] {
      RecordsWidth(names[..|names| - 1], index);
      RecordWidth(names[|names| - 1], index[names[|names| - 1]]);
    }
  }

  lemma {:induction false} RecordAt(names: seq<string>, index: map<string, Place>, i: nat)
    requires forall j :: 0 <= j < |names| ==>
      |names[j]| <= NAME_WIDTH && names[j] in index && PlaceFits(index[names[j]])
    requires i < |names|
    ensures RECORD * i + RECORD <= |Records(names, index)|
    ensures Records(names, index)[RECORD * i..RECORD * i + RECORD] == RecordOf(names[i], index[names[i]])
  {
    hide RecordOf, PlaceFits;
    var init, last := names[..|names| - 1], names[|names| - 1];
    RecordsWidth(init, index);
    RecordWidth(last, index[last]);
    if i < |init| {
      RecordAt(init, index, i);
      SliceFront(Records(init, index), RecordOf(last, index[last]), RECORD * i, RECORD * i + RECORD);
    } else {
      SliceBack(Records(init, index), RecordOf(last, index[last]));
    }
  }

  lemma {:induction false} SliceFront(a: string, b: string, from: nat, to: nat)
    requires from <= to <= |a|
    ensures (a + b)[from..to] == a[from..to]
  {
  }

  lemma {:induction false} SliceBack(a: string, b: string)
    ensures (a + b)[|a|..|a| + |b|] == b
  {
  }

  /** `records`, one field after another. */
  method WriteRecords(names: seq<string>, index: map<string, Place>) returns (text: string)
    requires forall i :: 0 <= i < |names| ==> |names[i]| <= NAME_WIDTH && names[i] in index
    ensures text == Records(names, index)
  {
    text := "";
    for i := 0 to |names|
      invariant text == Records(names[..i], index)
    {
      assert names[..i + 1][..i] == names[..i];
      var p := index[names[i]];
      ghost var before := text;
      text := text + Pad(names[i], NAME_WIDTH);
      text := text + HexNumber(p.start, START_WIDTH);
      text := text + HexNumber(p.length, LENGTH_WIDTH);
      assert text == before + RecordOf(names[i], p);
    }
    assert names[..|names|] == names;
  }

  // --- the lookup ------------------------------------------------------------------------------------

  /** The index of a database within the field widths. */
  ghost predicate Index(names: seq<string>, index: map<string, Place>) {
    && Ascending(names)
    && (forall i :: 0 <= i < |names| ==> names[i] in index && ValidName(names[i]))
    && (forall n :: n in index ==> n in names && PlaceFits(index[n]))
  }

  /** The records are in strictly ascending order of their name fields. */
  lemma {:induction false} RecordsAscend(names: seq<string>, index: map<string, Place>, i: nat, j: nat)
    requires Index(names, index) && i < j < |names|
    ensures Before(Pad(names[i], NAME_WIDTH), Pad(names[j], NAME_WIDTH))
  {
    PadOrder(names[i], names[j], NAME_WIDTH);
  }

  datatype Order = Less | Same | More

  /** The inner loop of `_find`: the padded query against a record's name field. */
  method Compare(query: string, index: string, at: nat) returns (order: Order)
    requires at + NAME_WIDTH <= |index| && |query| <= NAME_WIDTH
    ensures order.Same? <==> Pad(query, NAME_WIDTH) == index[at..at + NAME_WIDTH]
    ensures order.Less? ==> Before(Pad(query, NAME_WIDTH), index[at..at + NAME_WIDTH])
    ensures order.More? ==> Before(index[at..at + NAME_WIDTH], Pad(query, NAME_WIDTH))
  {
    ghost var padded, field := Pad(query, NAME_WIDTH), index[at..at + NAME_WIDTH];
    for i := 0 to NAME_WIDTH
      invariant padded[..i] == field[..i]
    {
      var want := if i < |query| then query[i] else PAD;
      var got := index[at + i];
      assert want == padded[i] && got == field[i];
      if want != got {
        if want < got {
          FirstDifference(padded, field, i);
          return Less;
        }
        FirstDifference(field, padded, i);
        return More;
      }
    }
    assert padded[..NAME_WIDTH] == padded && field[..NAME_WIDTH] == field;
    return Same;
  }

  /** A record's name field. */
  lemma {:induction false} NameField(names: seq<string>, index: map<string, Place>, i: nat)
    requires Index(names, index) && i < |names|
    ensures RECORD * i + NAME_WIDTH <= |Records(names, index)|
    ensures Records(names, index)[RECORD * i..RECORD * i + NAME_WIDTH] == Pad(names[i], NAME_WIDTH)
  {
    RecordAt(names, index, i);
    var all := Records(names, index);
    assert all[RECORD * i..RECORD * i + RECORD][..NAME_WIDTH] == all[RECORD * i..RECORD * i + NAME_WIDTH];
  }

  /** `_find`: the record with this name, for every query there is. */
  method Find(query: string, text: string, count: nat, ghost names: seq<string>,
              ghost index: map<string, Place>) returns (r: int)
    requires Index(names, index) && text == Records(names, index) && count == |names|
    ensures if query in names then 0 <= r < count && names[r] == query else r == -1
  {
    if |query| > NAME_WIDTH { return -1; }
    for i := 0 to |query|
      invariant PAD !in query[..i]
    {
      if query[i] == PAD { return -1; }
    }
    assert query[..|query|] == query;
    var lo, hi := 0, count;
    while lo < hi
      invariant 0 <= lo <= hi <= count
      invariant forall i :: 0 <= i < lo ==> names[i] != query
      invariant forall i :: hi <= i < count ==> names[i] != query
    {
      var mid := (lo + hi) / 2;
      NameField(names, index, mid);
      var order := Compare(query, text, mid * RECORD);
      if order.Same? {
        PadUnique(query, names[mid]);
        return mid;
      }
      FarSide(names, index, query, mid, order.Less?);
      if order.Less? { hi := mid; } else { lo := mid + 1; }
    }
    return -1;
  }

  lemma {:induction false} SamePlace(query: string, name: string, i: nat)
    requires |query| <= NAME_WIDTH && PAD !in query && ValidName(name) && Pad(query, NAME_WIDTH)
      == Pad(name, NAME_WIDTH)
    requires i < NAME_WIDTH
    ensures i < |query| <==> i < |name|
    ensures i < |query| && i < |name| ==> query[i] == name[i]
  {
    assert Pad(query, NAME_WIDTH)[i] == Pad(name, NAME_WIDTH)[i];
    if i < |query| { assert query[i] in query; }
  }

  /** Without the padding character in it, a query that pads to a name is the name. */
  lemma {:induction false} PadUnique(query: string, name: string)
    requires |query| <= NAME_WIDTH && PAD !in query && ValidName(name) && Pad(query, NAME_WIDTH)
      == Pad(name, NAME_WIDTH)
    ensures query == name
  {
    if |query| < |name| { SamePlace(query, name, |query|); }
    if |name| < |query| { SamePlace(query, name, |name|); }
    forall i | 0 <= i < |query| ensures query[i] == name[i] { SamePlace(query, name, i); }
  }

  /** A record on the wrong side rules out the half beyond it. */
  lemma {:induction false} FarSide(names: seq<string>, index: map<string, Place>, query: string, mid: nat, less: bool)
    requires Index(names, index) && mid < |names| && |query| <= NAME_WIDTH
    requires if less then Before(Pad(query, NAME_WIDTH), Pad(names[mid], NAME_WIDTH))
             else Before(Pad(names[mid], NAME_WIDTH), Pad(query, NAME_WIDTH))
    ensures less ==> forall i :: mid <= i < |names| ==> names[i] != query
    ensures !less ==> forall i :: 0 <= i <= mid ==> names[i] != query
  {
    var q, m := Pad(query, NAME_WIDTH), Pad(names[mid], NAME_WIDTH);
    forall i | 0 <= i < |names| && (if less then mid <= i else i <= mid) ensures names[i] != query {
      if i != mid {
        RecordsAscend(names, index, if less then mid else i, if less then i else mid);
        var p := Pad(names[i], NAME_WIDTH);
        if less {
          if AtMost(p, q) { AtMostTransitive(m, p, q); AtMostAntisymmetric(q, m); }
          AtMostReflexive(p);
        } else {
          if AtMost(q, p) { AtMostTransitive(q, p, m); AtMostAntisymmetric(q, m); }
          AtMostReflexive(p);
        }
      }
    }
  }

  /** What `load_location` does with a name: UTC, a zone file to read, or one of two refusals. */
  datatype Location = Utc | Zone(file: seq<Byte>) | BadLocationName | UnknownZone

  predicate NoTwoDots(name: string) {
    forall i :: 0 <= i < |name| - 1 && name[i] == '.' ==> name[i + 1] != '.'
  }

  predicate ZoneName(name: string) {
    name != "" && name[0] != '/' && name[0] != '\\' && NoTwoDots(name)
  }

  /** `_is_zone_name` */
  method IsZoneName(name: string) returns (good: bool)
    ensures good <==> ZoneName(name)
  {
    if |name| == 0 { return false; }
    if name[0] == '/' || name[0] == '\\' { return false; }
    for i := 0 to |name| - 1
      invariant forall j :: 0 <= j < i && name[j] == '.' ==> name[j + 1] != '.'
    {
      if name[i] == '.' && name[i + 1] == '.' { return false; }
    }
    return true;
  }

  /** The queries that are answered from the database. */
  predicate Searched(query: string) {
    query != "" && query != "UTC" && ZoneName(query)
  }

  /** `load_location`, on the constants of a generated file. */
  method Load(query: string, text: string, count: nat, blobText: string,
              ghost archive: Archive, ghost blob: seq<Byte>, ghost names: seq<string>, ghost index: map<string, Place>)
    returns (r: Location)
    requires Faithful(archive, blob, index) && Index(names, index)
    requires text == Records(names, index) && count == |names| && blobText == Hex(blob)
    ensures r == LocationOf(archive, query)
  {
    hide Records, Hex;
    if query == "" || query == "UTC" { return Utc; }
    var good := IsZoneName(query);
    if !good { return BadLocationName; }
    var at := Find(query, text, count, names, index);
    if at < 0 {
      assert query !in index;
      return UnknownZone;
    }
    var start, length := ReadPlace(text, at, names, index);
    assert IsAt(blob, index[query], archive[query]);
    var data := FileAt(blobText, start, length, blob);
    return Zone(data);
  }

  /** What the archive says a name stands for. */
  function LocationOf(archive: Archive, query: string): Location {
    if query == "" || query == "UTC" then Utc
    else if !ZoneName(query) then BadLocationName
    else if query in archive then Zone(archive[query])
    else UnknownZone
  }

  /** The two numbers of a record. */
  method ReadPlace(text: string, r: nat, ghost names: seq<string>,
                   ghost index: map<string, Place>) returns (start: int, length: int)
    requires Index(names, index) && text == Records(names, index) && r < |names|
    ensures start == index[names[r]].start && length == index[names[r]].length
  {
    PlaceFields(names, index, r);
    start := Number(text, r * RECORD + NAME_WIDTH, START_WIDTH);
    length := Number(text, r * RECORD + NAME_WIDTH + START_WIDTH, LENGTH_WIDTH);
  }

  lemma {:induction false} Within(text: string, a: nat, b: nat, c: nat, d: nat)
    requires a <= b <= |text| && c <= d <= b - a
    ensures text[a..b][c..d] == text[a + c..a + d]
  {
    forall i | 0 <= i < d - c ensures text[a..b][c..d][i] == text[a + c..a + d][i] {
      assert text[a..b][c..d][i] == text[a..b][c + i] == text[a + c + i];
    }
    assert |text[a..b][c..d]| == |text[a + c..a + d]|;
    assert text[a..b][c..d] == text[a + c..a + d];
  }

  lemma {:induction false} RecordFields(name: string, p: Place)
    requires |name| <= NAME_WIDTH && PlaceFits(p)
    ensures var record := RecordOf(name, p);
      && |record| == RECORD
      && record[NAME_WIDTH..NAME_WIDTH + START_WIDTH] == HexNumber(p.start, START_WIDTH)
      && record[NAME_WIDTH + START_WIDTH..NAME_WIDTH + START_WIDTH + LENGTH_WIDTH] == HexNumber(p.length, LENGTH_WIDTH)
  {
    HexWidth(p.start, START_WIDTH);
    HexWidth(p.length, LENGTH_WIDTH);
    Thirds(Pad(name, NAME_WIDTH), HexNumber(p.start, START_WIDTH), HexNumber(p.length, LENGTH_WIDTH));
  }

  lemma {:induction false} Thirds(a: string, b: string, c: string)
    ensures (a + b + c)[|a|..|a| + |b|] == b && (a + b + c)[|a| + |b|..|a| + |b| + |c|] == c
  {
  }

  /** A record's two numbers. */
  lemma {:induction false} PlaceFields(names: seq<string>, index: map<string, Place>, i: nat)
    requires Index(names, index) && i < |names|
    ensures var text, at, p := Records(names, index), i * RECORD + NAME_WIDTH, index[names[i]];
      && at + START_WIDTH + LENGTH_WIDTH <= |text|
      && NumberOf(text[at..at + START_WIDTH]) == p.start
      && NumberOf(text[at + START_WIDTH..at + START_WIDTH + LENGTH_WIDTH]) == p.length
  {
    hide Records, RecordOf, NumberOf, HexNumber;
    var text, from, p := Records(names, index), RECORD * i, index[names[i]];
    RecordAt(names, index, i);
    RecordFields(names[i], p);
    Within(text, from, from + RECORD, NAME_WIDTH, NAME_WIDTH + START_WIDTH);
    Within(text, from, from + RECORD, NAME_WIDTH + START_WIDTH, NAME_WIDTH + START_WIDTH + LENGTH_WIDTH);
    DigitsBack(p.start, START_WIDTH);
    DigitsBack(p.length, LENGTH_WIDTH);
  }

  // --- the whole way -------------------------------------------------------------------------------

  /** The constants of the generated file. */
  datatype Database = Database(index: string, count: nat, blob: string)

  /** A database that holds an archive: its blob, its index, and nothing else. */
  ghost predicate Answers(db: Database, archive: Archive, blob: seq<Byte>, names: seq<string>,
                          index: map<string, Place>) {
    && Faithful(archive, blob, index) && Index(names, index)
    && db == Database(Records(names, index), |names|, Hex(blob))
  }

  ghost predicate Serves(db: Database, archive: Archive) {
    exists blob, names, index :: Answers(db, archive, blob, names, index)
  }

  /**
   Every file is short enough for its field, and so are the files met before it:
   what the widths in the generator allow, told from the archive.
   */
  ghost predicate WithinWidths(archive: Archive, names: seq<string>)
    requires forall n :: n in names ==> n in archive
  {
    var files := FirstMet(archive, names);
    forall k :: 0 <= k < |files| ==> |Flat(files[..k])| < Pow16(START_WIDTH) && |files[k]| < Pow16(LENGTH_WIDTH)
  }

  lemma {:induction false} PlacesFit(archive: Archive, names: seq<string>, blob: seq<Byte>, index: map<string, Place>)
    requires (forall n :: n in names <==> n in archive) && Faithful(archive, blob, index)
    requires var files := FirstMet(archive, names);
      Placed(archive, index, files) && forall f :: f in files <==> f in archive.Values
    ensures WithinWidths(archive, names) <==> forall n :: n in index ==> PlaceFits(index[n])
  {
    hide Flat, FirstMet;
    var files := FirstMet(archive, names);
    if WithinWidths(archive, names) {
      forall n | n in index ensures PlaceFits(index[n]) {
        assert IsAt(blob, index[n], archive[n]);
        assert archive[n] in files;
        var k :| 0 <= k < |files| && files[k] == archive[n];
      }
    }
    if forall n :: n in index ==> PlaceFits(index[n]) {
      forall k | 0 <= k < |files| ensures |Flat(files[..k])| < Pow16(START_WIDTH) && |files[k]| < Pow16(LENGTH_WIDTH) {
        assert files[k] in files;
        var n :| n in archive && archive[n] == files[k];
        assert IsAt(blob, index[n], archive[n]);
      }
    }
  }

  /** A database that serves an archive has an index of whole records. */
  lemma {:induction false} ServesWhole(db: Database, archive: Archive, blob: seq<Byte>, names: seq<string>,
                                       index: map<string, Place>)
    requires forall i :: 0 <= i < |names| ==> |names[i]| <= NAME_WIDTH && names[i] in index && ValidName(names[i])
    requires Ascending(names) && (forall n :: n in index ==> n in names) && Faithful(archive, blob, index)
    requires db == Database(Records(names, index), |names|, Hex(blob))
    ensures Serves(db, archive) <==> forall n :: n in index ==> PlaceFits(index[n])
  {
    hide Records, Hex, Faithful, PlaceFits;
    RecordsWidth(names, index);
    if Serves(db, archive) {
      var blob', names', index' :| Answers(db, archive, blob', names', index');
      RecordsWidth(names', index');
      forall n | n in index ensures PlaceFits(index[n]) {
        var i :| 0 <= i < |names| && names[i] == n;
      }
    }
    if forall n :: n in index ==> PlaceFits(index[n]) {
      assert Answers(db, archive, blob, names, index);
    }
  }

  /** `generated`, from `order`, the order the archive lists its names in. */
  method Generate(archive: Archive, order: seq<string>) returns (db: Option<Database>)
    requires Distinct(order) && forall n :: n in order <==> n in archive
    ensures db.None? <==> exists n :: n in archive && !ValidName(n)
    ensures db.Some? ==> (Serves(db.value, archive) <==> WithinWidths(archive, Sort(order)))
  {
    hide Records, Hex, Faithful, PlaceFits, Serves, WithinWidths, Flat, FirstMet, Placed;
    var names := Sort(order);
    SortAscending(order);
    AllValidMeans(archive, names);
    var reading, files := ReadArchive(archive, names);
    if !reading.Read? { return None; }
    var blob, index := reading.blob, reading.index;
    KeysAlike(archive, blob, index);
    forall i | 0 <= i < |names| ensures ValidName(names[i]) && names[i] in index { assert names[i] in names; }
    var text := WriteRecords(names, index);
    db := Some(Database(text, |names|, Hex(blob)));
    PlacesFit(archive, names, blob, index);
    ServesWhole(db.value, archive, blob, names, index);
  }

  lemma {:induction false} KeysAlike(archive: Archive, blob: seq<Byte>, index: map<string, Place>)
    requires Faithful(archive, blob, index)
    ensures index.Keys == archive.Keys
  {
  }

  /**
   Every query is answered as the archive has it: the file of a name that is
   in it, byte for byte, unless the name is one that is answered, or refused,
   before the database is looked at.
   */
  method Lookup(db: Database, query: string, ghost archive: Archive) returns (r: Location)
    requires Serves(db, archive)
    ensures r == LocationOf(archive, query)
    ensures r == Utc <==> query in {"", "UTC"}
    ensures r == BadLocationName <==>
      query != "" && (query[0] in {'/', '\\'} || exists i :: 0 <= i < |query| - 1 && query[i] == query[i + 1] == '.')
    ensures (exists file :: r == Zone(file)) <==> query in archive && Searched(query)
    ensures query in archive && Searched(query) ==> r == Zone(archive[query])
  {
    ghost var blob, names, index :| Answers(db, archive, blob, names, index);
    r := Load(query, db.index, db.count, db.blob, archive, blob, names, index);
  }
}
