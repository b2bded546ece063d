/** The cases of the repository's test suite that this version of the builder
    covers, worked out as lemmas about the model. Each case is split in
    the steps `method` takes: the field names, their segments, the layout. */
module ReprScenarios {
  import opened PyText
  import opened MagicRepr

  // ---------------------------------------------------------------------------
  // Steps shared by the cases

  /** `getattr` finds the attribute at `i` when no earlier one has its name. */
  lemma FoundAt(attrs: seq<Attribute>, n: string, i: nat)
    requires i < |attrs| && attrs[i].name == n
    requires forall j :: 0 <= j < i ==> attrs[j].name != n
    ensures FindAttr(attrs, n) == Some(i)
  {
    assert HasAttr(attrs, n);
  }

  /** The three steps put together. */
  lemma ReprIs(clsName: string, args: seq<string>, attrs: seq<Attribute>,
               names: seq<string>, segs: seq<string>, text: string)
    requires FieldNames(args, attrs) == names
    requires Fields(names, attrs) == Ok(segs)
    requires Layout(clsName, segs) == text
    ensures Repr(clsName, args, attrs) == Ok(text)
  {
  }

  /** One field the instance has, shown as `seg`, then the rest. */
  lemma FieldsCons(n: string, rest: seq<string>, attrs: seq<Attribute>, i: nat, seg: string, segs: seq<string>)
    requires FindAttr(attrs, n) == Some(i)
    requires Segment(n, attrs[i].value) == seg
    requires Fields(rest, attrs) == Ok(segs)
    ensures Fields([n] + rest, attrs) == Ok([seg] + segs)
  {
    assert ([n] + rest)[1..] == rest;
  }

  lemma NoFields(attrs: seq<Attribute>)
    ensures Fields([], attrs) == Ok([])
  {
  }

  lemma FieldsOfOne(attrs: seq<Attribute>, n1: string, i1: nat, s1: string)
    requires FindAttr(attrs, n1) == Some(i1) && Segment(n1, attrs[i1].value) == s1
    ensures Fields([n1], attrs) == Ok([s1])
  {
    NoFields(attrs);
    FieldsCons(n1, [], attrs, i1, s1, []);
    assert [n1] + [] == [n1] && [s1] + [] == [s1];
  }

  lemma FieldsOfTwo(attrs: seq<Attribute>, n1: string, n2: string, i1: nat, i2: nat, s1: string, s2: string)
    requires FindAttr(attrs, n1) == Some(i1) && Segment(n1, attrs[i1].value) == s1
    requires FindAttr(attrs, n2) == Some(i2) && Segment(n2, attrs[i2].value) == s2
    ensures Fields([n1, n2], attrs) == Ok([s1, s2])
  {
    FieldsOfOne(attrs, n2, i2, s2);
    FieldsCons(n1, [n2], attrs, i1, s1, [s2]);
    assert [n1] + [n2] == [n1, n2] && [s1] + [s2] == [s1, s2];
  }

  lemma FieldsOfThree(attrs: seq<Attribute>, n1: string, n2: string, n3: string,
                      i1: nat, i2: nat, i3: nat, s1: string, s2: string, s3: string)
    requires FindAttr(attrs, n1) == Some(i1) && Segment(n1, attrs[i1].value) == s1
    requires FindAttr(attrs, n2) == Some(i2) && Segment(n2, attrs[i2].value) == s2
    requires FindAttr(attrs, n3) == Some(i3) && Segment(n3, attrs[i3].value) == s3
    ensures Fields([n1, n2, n3], attrs) == Ok([s1, s2, s3])
  {
    FieldsOfTwo(attrs, n2, n3, i2, i3, s2, s3);
    FieldsCons(n1, [n2, n3], attrs, i1, s1, [s2, s3]);
    assert [n1] + [n2, n3] == [n1, n2, n3] && [s1] + [s2, s3] == [s1, s2, s3];
  }

  /** One step of `filter(good_name, names)`. */
  lemma FilterGoodCons(attrs: seq<Attribute>, n: string, rest: seq<string>)
    ensures FilterGood(attrs, [n] + rest) == (if GoodName(attrs, n) then [n] else []) + FilterGood(attrs, rest)
  {
    assert ([n] + rest)[1..] == rest;
  }

  /** One step of `sep.join(xs)`. */
  lemma JoinStep(sep: string, x: string, rest: seq<string>)
    requires |rest| >= 1
    ensures Join(sep, [x] + rest) == x + sep + Join(sep, rest)
  {
    assert ([x] + rest)[1..] == rest;
  }

  /** `sorted` on one name. */
  lemma SortOne(a: string)
    ensures SortStrings([a]) == [a]
  {
    assert [a][1..] == [];
  }

  /** `sorted` on two names out of order swaps them. */
  lemma SortTwo(a: string, b: string)
    requires LexLessEq(b, a) && a != b
    ensures SortStrings([a, b]) == [b, a]
  {
    assert [a, b][1..] == [b];
    assert [b][1..] == [];
    assert SortStrings([b]) == Insert(b, []) == [b];
    if LexLessEq(a, b) {
      LexAntisymmetric(a, b);
    }
    assert [b][1..] == [];
    assert Insert(a, [b]) == [b] + Insert(a, []);
  }

  lemma Underscored(n: string)
    requires |n| > 0 && n[0] == '_'
    ensures StartsWith(n, "_")
  {
    assert n[..1] == "_";
  }

  lemma NotUnderscored(n: string)
    requires |n| > 0 && n[0] != '_'
    ensures !StartsWith(n, "_")
  {
    assert n[..1][0] != "_"[0];
  }

  // ---------------------------------------------------------------------------
  // Inferred fields

  /** An instance with fields `foo` and `bar` and two of the names every
      instance has. The model leaves the order of `dir` open; this listing is
      deliberately unsorted, so that `sorted` does the work. */
  const Assigned: seq<Attribute> := [
    Attribute("__init__", true, Other("<bound method TestMe.__init__>")),
    Attribute("__module__", false, Bytes("test_repr")),
    Attribute("foo", false, Other("1")),
    Attribute("bar", false, Other("2"))
  ]

  lemma AssignedNames()
    ensures Names(Assigned) == ["__init__", "__module__", "foo", "bar"]
  {
    assert Assigned[0].name == "__init__" && Assigned[1].name == "__module__";
    assert Assigned[2].name == "foo" && Assigned[3].name == "bar";
  }

  lemma AssignedGood()
    ensures !GoodName(Assigned, "__init__") && !GoodName(Assigned, "__module__")
    ensures GoodName(Assigned, "foo") && GoodName(Assigned, "bar")
  {
    Underscored("__init__");
    Underscored("__module__");
    FoundAt(Assigned, "foo", 2);
    FoundAt(Assigned, "bar", 3);
    NotUnderscored("foo");
    NotUnderscored("bar");
    assert !Assigned[2].isCallable && !Assigned[3].isCallable;
  }

  lemma AssignedFieldNames()
    ensures FieldNames([], Assigned) == ["bar", "foo"]
  {
    AssignedNames();
    AssignedGood();
    FilterGoodCons(Assigned, "bar", []);
    FilterGoodCons(Assigned, "foo", ["bar"]);
    FilterGoodCons(Assigned, "__module__", ["foo", "bar"]);
    FilterGoodCons(Assigned, "__init__", ["__module__", "foo", "bar"]);
    SortTwo("foo", "bar");
  }

  lemma AssignedFields()
    ensures Fields(["bar", "foo"], Assigned) == Ok(["bar=2", "foo=1"])
  {
    FoundAt(Assigned, "foo", 2);
    FoundAt(Assigned, "bar", 3);
    assert Segment("bar", Assigned[3].value) == "bar=2";
    assert Segment("foo", Assigned[2].value) == "foo=1";
    FieldsOfTwo(Assigned, "bar", "foo", 3, 2, "bar=2", "foo=1");
  }

  lemma AssignedLayout()
    ensures Layout("TestMe", ["bar=2", "foo=1"]) == "<TestMe bar=2 foo=1>"
  {
    LayoutRow("TestMe", ["bar=2", "foo=1"]);
  }

  /** Inferred fields come out in alphabetical order, whatever order they were
      assigned in. */
  lemma SortsAlphabetically()
    ensures Repr("TestMe", [], Assigned) == Ok("<TestMe bar=2 foo=1>")
  {
    AssignedFieldNames();
    AssignedFields();
    AssignedLayout();
    ReprIs("TestMe", [], Assigned, ["bar", "foo"], ["bar=2", "foo=1"], "<TestMe bar=2 foo=1>");
  }

  /** An instance with a public `foo` and a private `_bar`. */
  const Private: seq<Attribute> := [
    Attribute("_bar", false, Other("2")),
    Attribute("foo", false, Other("1"))
  ]

  lemma PrivateGood()
    ensures Names(Private) == ["_bar", "foo"]
    ensures !GoodName(Private, "_bar") && GoodName(Private, "foo")
  {
    assert Private[0].name == "_bar" && Private[1].name == "foo";
    Underscored("_bar");
    FoundAt(Private, "foo", 1);
    NotUnderscored("foo");
    assert !Private[1].isCallable;
  }

  lemma PrivateFieldNames()
    ensures FieldNames([], Private) == ["foo"]
  {
    PrivateGood();
    FilterGoodCons(Private, "foo", []);
    FilterGoodCons(Private, "_bar", ["foo"]);
    SortOne("foo");
  }

  lemma PrivateFields()
    ensures Fields(["foo"], Private) == Ok(["foo=1"])
  {
    FoundAt(Private, "foo", 1);
    assert Segment("foo", Private[1].value) == "foo=1";
    FieldsOfOne(Private, "foo", 1, "foo=1");
  }

  lemma FooLayout()
    ensures Layout("TestMe", ["foo=1"]) == "<TestMe foo=1>"
  {
    LayoutRow("TestMe", ["foo=1"]);
  }

  /** A name starting with an underscore is not shown. */
  lemma IgnoresUnderscored()
    ensures Repr("TestMe", [], Private) == Ok("<TestMe foo=1>")
  {
    PrivateFieldNames();
    PrivateFields();
    FooLayout();
    ReprIs("TestMe", [], Private, ["foo"], ["foo=1"], "<TestMe foo=1>");
  }

  /** An instance with a field `foo` and a method `bar`. */
  const WithMethod: seq<Attribute> := [
    Attribute("bar", true, Other("<bound method TestMe.bar>")),
    Attribute("foo", false, Other("1"))
  ]

  lemma WithMethodGood()
    ensures Names(WithMethod) == ["bar", "foo"]
    ensures !GoodName(WithMethod, "bar") && GoodName(WithMethod, "foo")
  {
    assert WithMethod[0].name == "bar" && WithMethod[1].name == "foo";
    FoundAt(WithMethod, "bar", 0);
    assert WithMethod[0].isCallable;
    FoundAt(WithMethod, "foo", 1);
    NotUnderscored("foo");
    assert !WithMethod[1].isCallable;
  }

  lemma WithMethodFieldNames()
    ensures FieldNames([], WithMethod) == ["foo"]
  {
    WithMethodGood();
    FilterGoodCons(WithMethod, "foo", []);
    FilterGoodCons(WithMethod, "bar", ["foo"]);
    SortOne("foo");
  }

  lemma WithMethodFields()
    ensures Fields(["foo"], WithMethod) == Ok(["foo=1"])
  {
    FoundAt(WithMethod, "foo", 1);
    assert Segment("foo", WithMethod[1].value) == "foo=1";
    FieldsOfOne(WithMethod, "foo", 1, "foo=1");
  }

  /** A callable attribute (a method) is not shown. */
  lemma IgnoresMethods()
    ensures Repr("TestMe", [], WithMethod) == Ok("<TestMe foo=1>")
  {
    WithMethodFieldNames();
    WithMethodFields();
    FooLayout();
    ReprIs("TestMe", [], WithMethod, ["foo"], ["foo=1"], "<TestMe foo=1>");
  }

  // ---------------------------------------------------------------------------
  // Explicit fields

  /** One explicitly named field holding `v`, shown as `shown`. */
  lemma OneField(v: Value, shown: string)
    requires FormatValue(v) == shown
    ensures Repr("TestMe", ["foo"], [Attribute("foo", false, v)]) == Ok(Layout("TestMe", ["foo=" + shown]))
  {
    var attrs := [Attribute("foo", false, v)];
    FoundAt(attrs, "foo", 0);
    FieldsOfOne(attrs, "foo", 0, "foo=" + shown);
    ReprIs("TestMe", ["foo"], attrs, ["foo"], ["foo=" + shown], Layout("TestMe", ["foo=" + shown]));
  }

  lemma TextLayout()
    ensures Layout("TestMe", ["foo=" + "u'бар'"]) == "<TestMe foo=u'бар'>"
  {
    LayoutRow("TestMe", ["foo=" + "u'бар'"]);
  }

  lemma BytesLayout()
    ensures Layout("TestMe", ["foo=" + "'бар'"]) == "<TestMe foo='бар'>"
  {
    LayoutRow("TestMe", ["foo=" + "'бар'"]);
  }

  lemma ListLayout()
    ensures Layout("TestMe", ["foo=" + "[0, 1, 2]"]) == "<TestMe foo=[0, 1, 2]>"
  {
    LayoutRow("TestMe", ["foo=" + "[0, 1, 2]"]);
  }

  lemma QuotedValues()
    ensures FormatValue(Text("бар")) == "u'бар'"
    ensures FormatValue(Bytes("бар")) == "'бар'"
    ensures FormatValue(Other("[0, 1, 2]")) == "[0, 1, 2]"
  {
  }

  /** Text and byte strings are quoted in their own styles. */
  lemma QuotesTextAndBytes()
    ensures Repr("TestMe", ["foo"], [Attribute("foo", false, Text("бар"))]) == Ok("<TestMe foo=u'бар'>")
    ensures Repr("TestMe", ["foo"], [Attribute("foo", false, Bytes("бар"))]) == Ok("<TestMe foo='бар'>")
  {
    QuotedValues();
    TextLayout();
    BytesLayout();
    OneField(Text("бар"), "u'бар'");
    OneField(Bytes("бар"), "'бар'");
  }

  /** A list value is shown by its own `repr`. */
  lemma ListShownByRepr()
    ensures Repr("TestMe", ["foo"], [Attribute("foo", false, Other("[0, 1, 2]"))]) == Ok("<TestMe foo=[0, 1, 2]>")
  {
    QuotedValues();
    ListLayout();
    OneField(Other("[0, 1, 2]"), "[0, 1, 2]");
  }

  /** Three text fields, and the bound `__repr__` method, whose own rendering
      holds the instance's multi-line text. */
  const Three: seq<Attribute> := [
    Attribute("foo", false, Text("фу")),
    Attribute("bar", false, Text("бар")),
    Attribute("bazz", false, Text("базз")),
    Attribute("__repr__", true, Other("<bound method TestMe.__repr__ of <TestMe foo=u'фу'\n        ...>>"))
  ]

  lemma ThreeFound()
    ensures FindAttr(Three, "foo") == Some(0)
    ensures FindAttr(Three, "bar") == Some(1)
    ensures FindAttr(Three, "bazz") == Some(2)
  {
    FoundAt(Three, "foo", 0);
    FoundAt(Three, "bar", 1);
    FoundAt(Three, "bazz", 2);
  }

  lemma ThreeSegments()
    ensures Segment("foo", Three[0].value) == "foo=u'фу'"
    ensures Segment("bar", Three[1].value) == "bar=u'бар'"
    ensures Segment("bazz", Three[2].value) == "bazz=u'базз'"
  {
  }

  lemma FooBarFields()
    ensures Fields(["foo", "bar"], Three) == Ok(["foo=u'фу'", "bar=u'бар'"])
  {
    ThreeFound();
    ThreeSegments();
    FieldsOfTwo(Three, "foo", "bar", 0, 1, "foo=u'фу'", "bar=u'бар'");
  }

  lemma FooBarBazzFields()
    ensures Fields(["foo", "bar", "bazz"], Three) == Ok(["foo=u'фу'", "bar=u'бар'", "bazz=u'базз'"])
  {
    ThreeFound();
    ThreeSegments();
    FieldsOfThree(Three, "foo", "bar", "bazz", 0, 1, 2, "foo=u'фу'", "bar=u'бар'", "bazz=u'базз'");
  }

  lemma RowPieces()
    ensures "<" + "TestMe" + " " + "foo=u'фу'" == "<TestMe foo=u'фу'"
    ensures " " + "bar=u'бар'" + ">" == " bar=u'бар'>"
    ensures "<TestMe foo=u'фу'" + " bar=u'бар'>" == "<TestMe foo=u'фу' bar=u'бар'>"
  {
  }

  lemma RowLayout()
    ensures Layout("TestMe", ["foo=u'фу'", "bar=u'бар'"]) == "<TestMe foo=u'фу' bar=u'бар'>"
  {
    var o, f, b := "<" + "TestMe" + " ", "foo=u'фу'", "bar=u'бар'";
    LayoutRow("TestMe", [f, b]);
    RowPieces();
    assert o + f + " " + b + ">" == (o + f) + (" " + b + ">");
  }

  /** Two explicitly named fields share a row, in the order they were named.
      The test's instance has only `foo` and `bar`; `Three` also has `bazz` and a
      bound `__repr__`, but with the names given, no other attribute is looked at. */
  lemma TwoFieldsInRow()
    ensures Repr("TestMe", ["foo", "bar"], Three) == Ok("<TestMe foo=u'фу' bar=u'бар'>")
  {
    FooBarFields();
    RowLayout();
    ReprIs("TestMe", ["foo", "bar"], Three, ["foo", "bar"], ["foo=u'фу'", "bar=u'бар'"],
      "<TestMe foo=u'фу' bar=u'бар'>");
  }

  lemma ColumnDelimiter()
    ensures Delimiter("TestMe", 3) == "\n        "
  {
    assert Spaces(8) == "        ";
  }

  lemma ColumnJoin(sep: string)
    ensures Join(sep, ["foo=u'фу'", "bar=u'бар'", "bazz=u'базз'"])
      == "foo=u'фу'" + sep + ("bar=u'бар'" + sep + "bazz=u'базз'")
  {
    JoinStep(sep, "foo=u'фу'", ["bar=u'бар'", "bazz=u'базз'"]);
    JoinStep(sep, "bar=u'бар'", ["bazz=u'базз'"]);
    assert ["foo=u'фу'"] + ["bar=u'бар'", "bazz=u'базз'"] == ["foo=u'фу'", "bar=u'бар'", "bazz=u'базз'"];
    assert ["bar=u'бар'"] + ["bazz=u'базз'"] == ["bar=u'бар'", "bazz=u'базз'"];
    assert ["bazz=u'базз'"][1..] == [];
  }

  /** The expected text, one line of the test's triple-quoted string at a time. */
  const ColumnExpected: string := "<TestMe foo=u'фу'" + "\n        bar=u'бар'" + "\n        bazz=u'базз'>"

  lemma ColumnPieces()
    ensures "<TestMe " + "foo=u'фу'" == "<TestMe foo=u'фу'"
    ensures "\n        " + "bar=u'бар'" == "\n        bar=u'бар'"
    ensures "\n        " + "bazz=u'базз'" + ">" == "\n        bazz=u'базз'>"
  {
  }

  lemma ColumnLayout()
    ensures Layout("TestMe", ["foo=u'фу'", "bar=u'бар'", "bazz=u'базз'"]) == ColumnExpected
  {
    var o, f, sep, b, z, c := "<TestMe ", "foo=u'фу'", "\n        ", "bar=u'бар'", "bazz=u'базз'", ">";
    ColumnDelimiter();
    ColumnJoin(sep);
    assert Opening("TestMe") == o;
    ColumnPieces();
    assert o + (f + sep + (b + sep + z)) + c == (o + f) + (sep + b) + (sep + z + c);
  }

  /** Three fields go one per line, aligned under the first. */
  lemma ThreeFieldsInColumn()
    ensures Repr("TestMe", ["foo", "bar", "bazz"], Three)
      == Ok(ColumnExpected)
  {
    FooBarBazzFields();
    ColumnLayout();
    ReprIs("TestMe", ["foo", "bar", "bazz"], Three, ["foo", "bar", "bazz"],
      ["foo=u'фу'", "bar=u'бар'", "bazz=u'базз'"],
      ColumnExpected);
  }

  /** Three shown fields the instance has, none with a line break. */
  lemma ShownLineFreeOfThree(attrs: seq<Attribute>, n1: string, n2: string, n3: string, i1: nat, i2: nat, i3: nat)
    requires FindAttr(attrs, n1) == Some(i1) && LineFree(n1) && LineFree(FormatValue(attrs[i1].value))
    requires FindAttr(attrs, n2) == Some(i2) && LineFree(n2) && LineFree(FormatValue(attrs[i2].value))
    requires FindAttr(attrs, n3) == Some(i3) && LineFree(n3) && LineFree(FormatValue(attrs[i3].value))
    ensures ShownLineFree([n1, n2, n3], attrs)
  {
    var names := [n1, n2, n3];
    assert names[0] == n1 && names[1] == n2 && names[2] == n3;
  }

  lemma ThreeValuesLineFree()
    ensures LineFree("foo") && LineFree(FormatValue(Three[0].value))
    ensures LineFree("bar") && LineFree(FormatValue(Three[1].value))
    ensures LineFree("bazz") && LineFree(FormatValue(Three[2].value))
  {
    assert FormatValue(Three[0].value) == "u'фу'";
    assert FormatValue(Three[1].value) == "u'бар'";
    assert FormatValue(Three[2].value) == "u'базз'";
  }

  /** The rendering of the bound `__repr__` method holds a line break. */
  lemma HiddenMultiline()
    ensures !LineFree(FormatValue(Three[3].value))
  {
    var hidden := FormatValue(Three[3].value);
    assert hidden == Three[3].value.repr;
    assert hidden[50] == '\n';
  }

  /** Only the shown fields of `Three` need be line-free, and they are, so the
      line lemmas (`ReprMultilineIff`, `ReprColumns`) cover this instance although
      its `__repr__` renders on two lines. */
  lemma ThreeShownLineFree()
    ensures ShownLineFree(FieldNames(["foo", "bar", "bazz"], Three), Three)
    ensures !LineFree(FormatValue(Three[3].value))
  {
    ThreeFound();
    ThreeValuesLineFree();
    ShownLineFreeOfThree(Three, "foo", "bar", "bazz", 0, 1, 2);
    HiddenMultiline();
  }

  /** Naming a field the instance lacks raises `AttributeError` for it. */
  lemma MissingFieldRaises()
    ensures Repr("TestMe", ["foo", "nope"], Three) == Err(AttributeError("nope"))
  {
    FoundAt(Three, "foo", 0);
    assert !HasAttr(Three, "nope");
    FieldsFirstMissing(["foo", "nope"], Three);
  }
}
