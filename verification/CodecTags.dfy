/**
 Struct tags, read strictly: `tags.py`'s `read` and `collide`.

 What the docstring grammar finds is an input here, the text of the `json` tag
 or nothing.  Which characters are letters or digits is an input too.
 */
module CodecTags {
  import opened Common

  const OMITEMPTY: string := "omitempty"

  const PUNCTUATION: string := "!#$%&()*+-./:;<=>?@[]^_{|}~ "

  datatype Tag = Tag(name: string, skip: bool, omitempty: bool)

  datatype Problem =
    | EmptyOption
    | RepeatedOption(option: string)
    | UnknownOption(option: string)
    | BadName(name: string)

  // --- splitting at commas -----------------------------------------------------------

  /** Python's `split(",")`. */
  function Split(s: string): (parts: seq<string>)
    ensures parts != []
    ensures forall i :: 0 <= i < |parts| ==> ',' !in parts[i]
  {
    if s == [] then [[]]
    else
      var rest := Split(s[1..]);
      if s[0] == ',' then [[]] + rest else [[s[0]] + rest[0]] + rest[1..]
  }

  /** Python's `",".join`. */
  function Join(parts: seq<string>): string
    requires parts != []
  {
    if |parts| == 1 then parts[0] else parts[0] + "," + Join(parts[1..])
  }

  lemma {:induction false} JoinSplit(s: string)
    ensures Join(Split(s)) == s
  {
    if s != [] {
      JoinSplit(s[1..]);
      var rest := Split(s[1..]);
      if s[0] == ',' {
        assert Split(s)[1..] == rest;
      } else if |rest| > 1 {
        assert Split(s)[1..] == rest[1..];
      }
    }
  }

  lemma {:induction false} SplitPlain(s: string)
    requires ',' !in s
    ensures Split(s) == [s]
  {
    if s != [] {
      SplitPlain(s[1..]);
      assert [s[0]] + s[1..] == s;
    }
  }

  lemma {:induction false} SplitJoin(parts: seq<string>)
    requires parts != [] && forall i :: 0 <= i < |parts| ==> ',' !in parts[i]
    ensures Split(Join(parts)) == parts
    decreases |parts|, |parts[0]|
  {
    if |parts| == 1 {
      SplitPlain(parts[0]);
    } else {
      var s := Join(parts);
      if parts[0] == [] {
        assert s[1..] == Join(parts[1..]);
        SplitJoin(parts[1..]);
      } else {
        var shorter := [parts[0][1..]] + parts[1..];
        assert shorter[1..] == parts[1..];
        assert Join(shorter) == parts[0][1..] + "," + Join(parts[1..]);
        assert s == [parts[0][0]] + Join(shorter);
        assert s[1..] == Join(shorter);
        assert s[0] in parts[0];
        SplitJoin(shorter);
        assert [s[0]] + shorter[0] == parts[0];
        assert [[s[0]] + shorter[0]] + shorter[1..] == parts;
        assert s[0] != ',';
        assert Split(s) == [[s[0]] + Split(s[1..])[0]] + Split(s[1..])[1..];
      }
    }
  }

  // --- one tag -------------------------------------------------------------------------

  predicate ValidName(alnum: char -> bool, name: string) {
    name != [] && forall i :: 0 <= i < |name| ==> alnum(name[i]) || name[i] in PUNCTUATION
  }

  /** `json:"-,"` is the one place a trailing comma means something. */
  function Options(value: string): seq<string> {
    if value == "-," then [] else Split(value)[1..]
  }

  /** The tags the generator accepts, written out. */
  ghost predicate Proper(alnum: char -> bool, value: string) {
    || value == "-"
    || value == "-,"
    || exists name :: ',' !in name && (name == [] || ValidName(alnum, name))
         && (value == name || value == name + "," + OMITEMPTY)
  }

  /** Option `i` of a tag is one the generator has and has not met yet. */
  predicate Fine(options: seq<string>, i: nat)
    requires i < |options|
  {
    options[i] == OMITEMPTY && options[i] !in options[..i]
  }

  /** `read`, from the tag on: what the field's tag says, and what is wrong with it. */
  method Read(alnum: char -> bool, field: string, found: Option<string>) returns (tag: Tag, problems: seq<Problem>)
    ensures found.None? ==> tag == Tag(field, false, false) && problems == []
    ensures found.Some? && found.value == "-" ==> tag.skip && problems == []
    ensures found.Some? && found.value != "-" ==>
      && !tag.skip
      && tag.name == (if Split(found.value)[0] == [] then field else Split(found.value)[0])
      && (tag.omitempty <==> OMITEMPTY in Options(found.value))
    ensures found.Some? ==> (problems == [] <==> Proper(alnum, found.value))
  {
    problems := [];
    if found.None? {
      return Tag(field, false, false), problems;
    }
    var value := found.value;
    if value == "-" {
      return Tag("", true, false), problems;
    }
    var parts := Split(value);
    var name := parts[0];
    var options := Options(value);
    var seen: set<string> := {};
    for i := 0 to |options|
      invariant seen == (set k | 0 <= k < i && options[k] != [] :: options[k])
      invariant problems == [] <==> forall k :: 0 <= k < i ==> Fine(options, k)
    {
      var option := options[i];
      ghost var before := problems;
      assert option != [] ==> (option in seen <==> option in options[..i]);
      if option == [] {
        problems := problems + [EmptyOption];
      } else if option in seen {
        problems := problems + [RepeatedOption(option)];
      } else {
        seen := seen + {option};
        if option != OMITEMPTY {
          problems := problems + [UnknownOption(option)];
        }
      }
      assert problems == [] <==> before == [] && Fine(options, i);
    }
    FineIsOnce(options);
    if name != [] && !ValidName(alnum, name) {
      problems := problems + [BadName(name)];
    }
    tag := Tag(if name == [] then field else name, false, OMITEMPTY in seen);
    ProperIsFine(alnum, value);
  }

  lemma {:induction false} FineIsOnce(options: seq<string>)
    ensures (forall k :: 0 <= k < |options| ==> Fine(options, k)) <==> options == [] || options == [OMITEMPTY]
  {
    if |options| > 1 {
      assert options[..1][0] == options[0];
      assert !Fine(options, 0) || !Fine(options, 1);
    } else if |options| == 1 {
      assert Fine(options, 0) <==> options == [OMITEMPTY];
    }
  }

  /** What the checks of `read` come to. */
  predicate Checked(alnum: char -> bool, value: string) {
    && (Options(value) == [] || Options(value) == [OMITEMPTY])
    && (Split(value)[0] == [] || ValidName(alnum, Split(value)[0]))
  }

  lemma {:induction false} DashIsAName(alnum: char -> bool)
    ensures Split("-,") == ["-", ""] && ValidName(alnum, "-")
  {
    assert ["-", ""][1..] == [""];
    assert Join([""]) == "";
    assert "-," == Join(["-", ""]);
    SplitJoin(["-", ""]);
    assert PUNCTUATION[9] == '-';
  }

  lemma {:induction false} OneName(alnum: char -> bool, value: string, name: string)
    requires ',' !in name && (name == [] || ValidName(alnum, name))
    requires value == name || value == name + "," + OMITEMPTY
    requires value != "-,"
    ensures Checked(alnum, value)
  {
    if value == name {
      SplitPlain(name);
    } else {
      assert value == Join([name, OMITEMPTY]);
      SplitJoin([name, OMITEMPTY]);
    }
  }

  lemma {:induction false} NameOfChecked(alnum: char -> bool, value: string)
    requires Checked(alnum, value) && value != "-,"
    ensures var name := Split(value)[0];
      && ',' !in name && (name == [] || ValidName(alnum, name))
      && (value == name || value == name + "," + OMITEMPTY)
  {
    JoinSplit(value);
    var name := Split(value)[0];
    if Options(value) == [] {
      assert Split(value) == [name];
    } else {
      assert Split(value) == [name] + [OMITEMPTY];
      assert [name, OMITEMPTY][1..] == [OMITEMPTY];
    }
  }

  /** The checks of `read` accept the tags written out in `Proper` and no others. */
  lemma {:induction false} ProperIsFine(alnum: char -> bool, value: string)
    requires value != "-"
    ensures Proper(alnum, value) <==> Checked(alnum, value)
  {
    if value == "-," {
      DashIsAName(alnum);
    } else if Checked(alnum, value) {
      NameOfChecked(alnum, value);
      assert Proper(alnum, value);
    } else if Proper(alnum, value) {
      var name :| ',' !in name && (name == [] || ValidName(alnum, name))
        && (value == name || value == name + "," + OMITEMPTY);
      OneName(alnum, value, name);
    }
  }

  // --- two fields under one name ----------------------------------------------------------

  /** A field of a struct and the name it is encoded under. */
  datatype Named = Named(field: string, json: string)

  /** The fields encoded under one name, in declaration order. */
  function Under(named: seq<Named>, json: string): seq<string> {
    if named == [] then []
    else Under(named[..|named| - 1], json)
         + (if named[|named| - 1].json == json then [named[|named| - 1].field] else [])
  }

  ghost predicate Unique(named: seq<Named>) {
    forall i, j :: 0 <= i < j < |named| ==> named[i].json != named[j].json
  }

  datatype Collision = Collision(fields: seq<string>, json: string)

  lemma {:induction false} UnderMany(named: seq<Named>, json: string, i: nat, j: nat)
    requires i < j < |named| && named[i].json == json && named[j].json == json
    ensures |Under(named, json)| > 1
  {
    var init := named[..|named| - 1];
    if j < |named| - 1 {
      UnderMany(init, json, i, j);
    } else {
      UnderSome(init, json, i);
    }
  }

  lemma {:induction false} UnderSome(named: seq<Named>, json: string, i: nat)
    requires i < |named| && named[i].json == json
    ensures Under(named, json) != []
  {
    if i < |named| - 1 { UnderSome(named[..|named| - 1], json, i); }
  }

  lemma {:induction false} UnderUnique(named: seq<Named>, json: string)
    requires Unique(named)
    ensures |Under(named, json)| <= 1
    ensures Under(named, json) != [] ==> exists i :: 0 <= i < |named| && named[i].json == json
  {
    if named != [] {
      var init := named[..|named| - 1];
      UnderUnique(init, json);
      if Under(init, json) != [] {
        var i :| 0 <= i < |init| && init[i].json == json;
        assert named[i].json == json;
      } else if named[|named| - 1].json == json {
        assert named[|named| - 1].json == json;
      }
    }
  }

  /** The names, each with the fields it came from. */
  method Group(named: seq<Named>) returns (byName: map<string, seq<string>>)
    ensures forall json :: json in byName <==> Under(named, json) != []
    ensures forall json :: json in byName ==> byName[json] == Under(named, json)
  {
    byName := map[];
    for i := 0 to |named|
      invariant forall json :: json in byName <==> Under(named[..i], json) != []
      invariant forall json :: json in byName ==> byName[json] == Under(named[..i], json)
    {
      var x := named[i];
      assert named[..i + 1][..i] == named[..i];
      byName := byName[x.json := (if x.json in byName then byName[x.json] else []) + [x.field]];
    }
    assert named[..|named|] == named;
  }

  /** The names among `names` that more than one field is under, as they are reported. */
  function Reported(named: seq<Named>, names: seq<string>): seq<Collision> {
    if names == [] then []
    else
      var last := names[|names| - 1];
      Reported(named, names[..|names| - 1])
      + (if |Under(named, last)| > 1 then [Collision(Under(named, last), last)] else [])
  }

  lemma {:induction false} ReportedOf(named: seq<Named>, names: seq<string>)
    requires Ascending(names)
    ensures var r := Reported(named, names);
      && (forall i, j :: 0 <= i < j < |r| ==> Before(r[i].json, r[j].json))
      && (forall i :: 0 <= i < |r| ==>
            r[i].json in names && r[i].fields == Under(named, r[i].json) && |r[i].fields| > 1)
      && (forall k :: 0 <= k < |names| && |Under(named, names[k])| > 1 ==>
            Collision(Under(named, names[k]), names[k]) in r)
  {
    hide Under, AtMost;
    if names != [] {
      var init := names[..|names| - 1];
      var last := names[|names| - 1];
      ReportedOf(named, init);
      var before := Reported(named, init);
      forall i | 0 <= i < |before| ensures Before(before[i].json, last) {
        var k :| 0 <= k < |init| && init[k] == before[i].json;
        assert names[k] == before[i].json;
      }
      forall k | 0 <= k < |names| && |Under(named, names[k])| > 1
        ensures Collision(Under(named, names[k]), names[k]) in Reported(named, names)
      {
        if k < |init| { assert init[k] == names[k]; }
      }
    }
  }

  /** `collide`: what is reported is every name with more than one field, in name order. */
  method Collide(order: set<string> -> seq<string>, named: seq<Named>) returns (problems: seq<Collision>)
    requires forall s: set<string> :: Distinct(order(s)) && forall x :: x in order(s) <==> x in s
    ensures forall i, j :: 0 <= i < j < |problems| ==> Before(problems[i].json, problems[j].json)
    ensures forall i :: 0 <= i < |problems| ==>
      problems[i].fields == Under(named, problems[i].json) && |problems[i].fields| > 1
    ensures forall json :: |Under(named, json)| > 1 ==> Collision(Under(named, json), json) in problems
    ensures problems == [] <==> Unique(named)
  {
    var byName := Group(named);
    var names := Sort(order(byName.Keys));
    SortAscending(order(byName.Keys));
    problems := [];
    for i := 0 to |names|
      invariant problems == Reported(named, names[..i])
    {
      var fields := byName[names[i]];
      if |fields| > 1 {
        problems := problems + [Collision(fields, names[i])];
      }
      assert names[..i + 1][..i] == names[..i];
    }
    assert names[..|names|] == names;
    ReportedOf(named, names);
    forall json | |Under(named, json)| > 1 ensures Collision(Under(named, json), json) in problems {
      var k :| 0 <= k < |names| && names[k] == json;
    }
    UniqueIsQuiet(named, problems);
  }

  lemma {:induction false} UniqueIsQuiet(named: seq<Named>, problems: seq<Collision>)
    requires forall i :: 0 <= i < |problems| ==>
      problems[i].fields == Under(named, problems[i].json) && |problems[i].fields| > 1
    requires forall json :: |Under(named, json)| > 1 ==> Collision(Under(named, json), json) in problems
    ensures problems == [] <==> Unique(named)
  {
    if problems == [] {
      forall i, j | 0 <= i < j < |named| ensures named[i].json != named[j].json {
        if named[i].json == named[j].json { UnderMany(named, named[i].json, i, j); }
      }
    } else if Unique(named) {
      UnderUnique(named, problems[0].json);
    }
  }
}
