/** The object-representation builder of magic_repr: `format_value`, which
    renders one attribute value, and the method `make_repr` returns, which
    picks the fields of an instance and lays them out as `<Name f=v ...>`.

    Python's run-time introspection is replaced by inputs: an instance is
    described by its class name and by the attributes `dir` lists, each with
    its name, whether it is callable, and its value. */
module MagicRepr {
  import opened PyText

  /** The shapes of value `format_value` tells apart: a byte string (Python 2
      `str`, taken as already decoded), a text string (`unicode`), and any other
      object, which is represented by the text its own `repr` gives. */
  datatype Value = Bytes(content: string) | Text(content: string) | Other(repr: string)

  /** One name `dir` lists for an instance, as `getattr` and `callable` see it. */
  datatype Attribute = Attribute(name: string, isCallable: bool, value: Value)

  /** `getattr` on a name the instance does not have raises `AttributeError`. */
  datatype ReprError = AttributeError(name: string)

  datatype Result<T> = Ok(value: T) | Err(error: ReprError)

  datatype Option<T> = None | Some(value: T)

  // ---------------------------------------------------------------------------
  // format_value

  /** `isinstance(value, str)` */
  predicate IsByteString(v: Value) { v.Bytes? }

  /** `isinstance(value, unicode)` */
  predicate IsUnicode(v: Value) { v.Text? }

  /** A byte string is shown between single quotes, a text string between `u'`
      and `'`, with the content copied as it is (nothing is escaped); anything
      else is shown as its own `repr`. The checks are made in that order. */
  function FormatValue(v: Value): (r: string)
    ensures IsByteString(v) ==>
      |r| == |v.content| + 2 && r[0] == '\'' && r[1..|r| - 1] == v.content && r[|r| - 1] == '\''
    ensures !IsByteString(v) && IsUnicode(v) ==>
      |r| == |v.content| + 3 && r[..2] == "u'" && r[2..|r| - 1] == v.content && r[|r| - 1] == '\''
    ensures !IsByteString(v) && !IsUnicode(v) ==> r == v.repr
  {
    if IsByteString(v) then "'" + v.content + "'"
    else if IsUnicode(v) then "u'" + v.content + "'"
    else v.repr
  }

  /** Reads a quoted literal back: the inverse of `FormatValue` on strings. */
  function ParseQuoted(r: string): Option<Value> {
    if |r| >= 2 && r[0] == '\'' && r[|r| - 1] == '\'' then Some(Bytes(r[1..|r| - 1]))
    else if |r| >= 3 && r[..2] == "u'" && r[|r| - 1] == '\'' then Some(Text(r[2..|r| - 1]))
    else None
  }

  /** The rendering of a byte or text string determines the string and its kind:
      the two quote styles never collide, and no content is lost. */
  lemma FormatValueRoundTrip(v: Value)
    requires !v.Other?
    ensures ParseQuoted(FormatValue(v)) == Some(v)
  {
  }

  // ---------------------------------------------------------------------------
  // Attribute lookup: getattr and dir

  /** The names `dir(self)` lists, in its order. */
  function Names(attrs: seq<Attribute>): (r: seq<string>)
    ensures |r| == |attrs|
    ensures forall i :: 0 <= i < |attrs| ==> r[i] == attrs[i].name
  {
    if |attrs| == 0 then [] else [attrs[0].name] + Names(attrs[1..])
  }

  predicate HasAttr(attrs: seq<Attribute>, name: string) {
    exists i :: 0 <= i < |attrs| && attrs[i].name == name
  }

  /** Where `getattr(self, name)` finds its answer: the first attribute of that name. */
  function FindAttr(attrs: seq<Attribute>, name: string): (r: Option<nat>)
    ensures r.None? <==> !HasAttr(attrs, name)
    ensures r.Some? ==> r.value < |attrs| && attrs[r.value].name == name
    ensures r.Some? ==> forall j :: 0 <= j < r.value ==> attrs[j].name != name
  {
    if |attrs| == 0 then None
    else if attrs[0].name == name then Some(0)
    else
      match FindAttr(attrs[1..], name)
      case None =>
        assert forall i :: 0 < i < |attrs| ==> attrs[i] == attrs[1..][i - 1];
        None
      case Some(i) => Some(i + 1)
  }

  // ---------------------------------------------------------------------------
  // Field selection (make_repr's method, first half)

  /** `good_name`: the name does not start with an underscore and the value
      `getattr` gives for it is not callable. */
  predicate GoodName(attrs: seq<Attribute>, name: string) {
    !StartsWith(name, "_") && FindAttr(attrs, name).Some? && !attrs[FindAttr(attrs, name).value].isCallable
  }

  /** `good_name` in terms of the listing alone: the name is public and the
      first attribute of that name is not callable. */
  lemma GoodNameFirst(attrs: seq<Attribute>, name: string)
    ensures GoodName(attrs, name) <==>
      && !StartsWith(name, "_")
      && exists i :: 0 <= i < |attrs| && attrs[i].name == name && !attrs[i].isCallable &&
           forall j :: 0 <= j < i ==> attrs[j].name != name
  {
    if !GoodName(attrs, name) && !StartsWith(name, "_") && HasAttr(attrs, name) {
      var f := FindAttr(attrs, name).value;
      forall i | 0 <= i < |attrs| && attrs[i].name == name && forall j :: 0 <= j < i ==> attrs[j].name != name
        ensures attrs[i].isCallable
      {
        assert i == f;
      }
    }
  }

  /** `filter(good_name, names)`: how often each name survives. */
  function FilterGood(attrs: seq<Attribute>, names: seq<string>): (r: seq<string>)
    ensures forall n :: multiset(r)[n] == if GoodName(attrs, n) then multiset(names)[n] else 0
  {
    if |names| == 0 then []
    else
      assert names == [names[0]] + names[1..];
      var rest := FilterGood(attrs, names[1..]);
      if GoodName(attrs, names[0]) then [names[0]] + rest else rest
  }

  /** `sorted(filter(good_name, dir(self)))`: the names that are public and not
      callable, in ascending order. */
  function InferFieldNames(attrs: seq<Attribute>): (r: seq<string>)
    ensures Sorted(r)
    ensures forall n :: multiset(r)[n] == if GoodName(attrs, n) then multiset(Names(attrs))[n] else 0
  {
    SortStrings(FilterGood(attrs, Names(attrs)))
  }

  /** The given field names when there are any, in the caller's order;
      otherwise the inferred ones. */
  function FieldNames(args: seq<string>, attrs: seq<Attribute>): (r: seq<string>)
    ensures |args| > 0 ==> r == args
    ensures |args| == 0 ==> Sorted(r) && forall n :: n in r <==> n in Names(attrs) && GoodName(attrs, n)
  {
    if |args| > 0 then args
    else
      var r := InferFieldNames(attrs);
      assert forall n :: n in r <==> multiset(r)[n] > 0;
      r
  }

  /** Every inferred field is an attribute in the supplied list, so with no
      field names given the lookups at the segments never fail. */
  lemma InferredNamesResolve(attrs: seq<Attribute>)
    ensures forall n :: n in InferFieldNames(attrs) ==> HasAttr(attrs, n)
  {
    var r := InferFieldNames(attrs);
    forall n | n in r ensures HasAttr(attrs, n) {
      assert multiset(r)[n] > 0;
    }
  }

  /** Attributes listed once each, as `dir` lists them. */
  predicate DistinctNames(attrs: seq<Attribute>) {
    forall i, j :: 0 <= i < j < |attrs| ==> attrs[i].name != attrs[j].name
  }

  /** With each attribute listed once, a name occurs at most once in the listing. */
  lemma NameCountAtMostOne(attrs: seq<Attribute>, n: string)
    requires DistinctNames(attrs)
    ensures multiset(Names(attrs))[n] <= 1
  {
    if HasAttr(attrs, n) {
      var i := FindAttr(attrs, n).value;
      var names := Names(attrs);
      assert names == names[..i] + [n] + names[i + 1..];
      assert n !in names[..i];
      assert forall k :: i < k < |names| ==> names[k] != n;
      assert n !in names[i + 1..];
      assert multiset(names) == multiset(names[..i]) + multiset{n} + multiset(names[i + 1..]);
    } else {
      assert n !in Names(attrs);
    }
  }

  /** A list in which nothing occurs twice has no two equal positions. */
  lemma NoRepeats(r: seq<string>)
    requires forall n :: multiset(r)[n] <= 1
    ensures forall i, j :: 0 <= i < j < |r| ==> r[i] != r[j]
  {
    forall i, j | 0 <= i < j < |r| ensures r[i] != r[j] {
      assert r == r[..i] + [r[i]] + r[i + 1..j] + [r[j]] + r[j + 1..];
      var m := multiset(r[..i]) + multiset{r[i]} + multiset(r[i + 1..j]) + multiset{r[j]} + multiset(r[j + 1..]);
      assert multiset(r) == m;
      assert m[r[i]] >= multiset{r[i]}[r[i]] + multiset{r[j]}[r[i]];
    }
  }

  /** With each attribute listed once, the inferred fields are exactly the
      attributes whose name does not start with `_` and that are not callable,
      each once, in strictly ascending order. */
  lemma InferFieldNamesExact(attrs: seq<Attribute>)
    requires DistinctNames(attrs)
    ensures forall n :: n in InferFieldNames(attrs) <==>
      exists i :: 0 <= i < |attrs| && attrs[i].name == n && !StartsWith(n, "_") && !attrs[i].isCallable
    ensures var r := InferFieldNames(attrs);
      forall i, j :: 0 <= i < j < |r| ==> r[i] != r[j]
  {
    var r := InferFieldNames(attrs);
    forall n ensures n in r <==>
      exists i :: 0 <= i < |attrs| && attrs[i].name == n && !StartsWith(n, "_") && !attrs[i].isCallable
    {
      InferredMember(attrs, n);
    }
    forall n ensures multiset(r)[n] <= 1 {
      NameCountAtMostOne(attrs, n);
    }
    NoRepeats(r);
  }

  /** One name at a time: the inferred fields hold `n` exactly when the
      attribute of that name is public and not callable. */
  lemma InferredMember(attrs: seq<Attribute>, n: string)
    requires DistinctNames(attrs)
    ensures n in InferFieldNames(attrs) <==>
      exists i :: 0 <= i < |attrs| && attrs[i].name == n && !StartsWith(n, "_") && !attrs[i].isCallable
  {
    var r := InferFieldNames(attrs);
    assert n in r <==> multiset(r)[n] > 0;
    assert n in Names(attrs) <==> HasAttr(attrs, n);
    if HasAttr(attrs, n) {
      var k := FindAttr(attrs, n).value;
      forall i | 0 <= i < |attrs| && attrs[i].name == n ensures i == k {
      }
    }
  }

  /** The inferred fields are THE ascending arrangement of the chosen names:
      any ascending list that holds each name as often as the inferred list is
      that list, whatever order `dir` listed the attributes in. */
  lemma InferFieldNamesUnique(attrs: seq<Attribute>, r: seq<string>)
    requires Sorted(r)
    requires forall n :: multiset(r)[n] == if GoodName(attrs, n) then multiset(Names(attrs))[n] else 0
    ensures r == InferFieldNames(attrs)
  {
    var s := InferFieldNames(attrs);
    assert multiset(r) == multiset(s) by {
      forall n ensures multiset(r)[n] == multiset(s)[n] {
      }
    }
    SortedUnique(r, s);
  }

  // ---------------------------------------------------------------------------
  // Layout (make_repr's method, second half)

  /** `u'<' + cls_name + u' '`: what precedes the first field. */
  function Opening(clsName: string): string {
    "<" + clsName + " "
  }

  /** The opening is `<`, the class name and a blank: `len(cls_name) + 2` wide. */
  lemma OpeningParts(clsName: string)
    ensures var o := Opening(clsName);
      && |o| == |clsName| + 2
      && o[0] == '<' && o[1..|o| - 1] == clsName && o[|o| - 1] == ' '
  {
    var o := Opening(clsName);
    assert o[1..|o| - 1] == clsName;
  }

  /** More than two fields go one per line, each later one indented by
      `len(cls_name) + 2` blanks; up to two share the line, a blank apart. */
  function Delimiter(clsName: string, fieldCount: nat): (r: string)
    ensures fieldCount > 2 ==> r == "\n" + Spaces(|Opening(clsName)|)
    ensures fieldCount <= 2 ==> r == " "
  {
    if fieldCount > 2 then "\n" + Spaces(|clsName| + 2) else " "
  }

  /** `u'{0}={1}'.format(name, format_value(value))` */
  function Segment(name: string, v: Value): string {
    name + "=" + FormatValue(v)
  }

  /** The segment of every field, in field order, or the error `getattr` raises
      on the first name the instance lacks. */
  function Fields(names: seq<string>, attrs: seq<Attribute>): (r: Result<seq<string>>)
    ensures r.Ok? <==> forall k :: 0 <= k < |names| ==> HasAttr(attrs, names[k])
    ensures r.Ok? ==> |r.value| == |names| && forall k :: 0 <= k < |names| ==>
      r.value[k] == Segment(names[k], attrs[FindAttr(attrs, names[k]).value].value)
  {
    if |names| == 0 then Ok([])
    else
      match FindAttr(attrs, names[0])
      case None => Err(AttributeError(names[0]))
      case Some(i) =>
        match Fields(names[1..], attrs)
        case Err(e) =>
          Err(e)
        case Ok(rest) =>
          assert forall k :: 0 < k < |names| ==> names[k] == names[1..][k - 1];
          Ok([Segment(names[0], attrs[i].value)] + rest)
  }

  /** The error names the first field the instance lacks. */
  lemma {:induction false} FieldsFirstMissing(names: seq<string>, attrs: seq<Attribute>)
    ensures Fields(names, attrs).Err? ==> exists k :: (0 <= k < |names| && !HasAttr(attrs, names[k]) &&
      Fields(names, attrs).error == AttributeError(names[k]) && forall j :: 0 <= j < k ==> HasAttr(attrs, names[j]))
  {
    if |names| > 0 && HasAttr(attrs, names[0]) && Fields(names[1..], attrs).Err? {
      FieldsFirstMissing(names[1..], attrs);
      var k :| 0 <= k < |names| - 1 && !HasAttr(attrs, names[1..][k]) &&
        Fields(names[1..], attrs).error == AttributeError(names[1..][k]) &&
        forall j :: 0 <= j < k ==> HasAttr(attrs, names[1..][j]);
      assert forall j :: 0 < j <= k ==> names[j] == names[1..][j - 1];
      assert names[k + 1] == names[1..][k];
    }
  }

  /** `u'<{cls_name} {fields}>'.format(...)` with the segments joined by the
      delimiter; the delimiter follows the number of fields. */
  function Layout(clsName: string, segs: seq<string>): (r: string)
    ensures StartsWith(r, "<" + clsName + " ")
    ensures |r| > 0 && r[|r| - 1] == '>'
  {
    var r := Opening(clsName) + Join(Delimiter(clsName, |segs|), segs) + ">";
    assert r[..|Opening(clsName)|] == Opening(clsName);
    r
  }

  /** A segment is the field name, `=` and the rendered value, in that order,
      so the name and the value can be read back from it. */
  lemma SegmentParts(name: string, v: Value)
    ensures var r := Segment(name, v);
      && |r| == |name| + 1 + |FormatValue(v)|
      && r[..|name|] == name && r[|name|] == '=' && r[|name| + 1..] == FormatValue(v)
  {
    var r := Segment(name, v);
    assert r[..|name|] == name;
    assert r[|name| + 1..] == FormatValue(v);
  }

  /** The text `repr(instance)` gives: the laid-out segments of the fields, or
      the error `getattr` raises on the first field the instance lacks. When no
      field names are given, every inferred field is in the attribute list, so
      nothing is raised (the list stands for the names whose lookup succeeds). */
  function Repr(clsName: string, args: seq<string>, attrs: seq<Attribute>): (r: Result<string>)
    ensures var names := FieldNames(args, attrs);
      r.Ok? <==> forall k :: 0 <= k < |names| ==> HasAttr(attrs, names[k])
    ensures |args| == 0 ==> r.Ok?
    ensures r.Ok? ==> r.value == Layout(clsName, Fields(FieldNames(args, attrs), attrs).value)
    ensures r.Err? ==> r.error == Fields(FieldNames(args, attrs), attrs).error
  {
    var names := FieldNames(args, attrs);
    InferredNamesResolve(attrs);
    match Fields(names, attrs)
    case Err(e) => Err(e)
    case Ok(segs) => Ok(Layout(clsName, segs))
  }

  // ---------------------------------------------------------------------------
  // Layout properties

  /** With no fields to show, the result is the opening and the closing bracket. */
  lemma LayoutNoFields(clsName: string)
    ensures Layout(clsName, []) == "<" + clsName + " >"
  {
  }

  /** One or two fields share one row, a single blank apart. */
  lemma LayoutRow(clsName: string, segs: seq<string>)
    requires 1 <= |segs| <= 2
    ensures Layout(clsName, segs) ==
      if |segs| == 1 then "<" + clsName + " " + segs[0] + ">"
      else "<" + clsName + " " + segs[0] + " " + segs[1] + ">"
  {
    if |segs| == 2 {
      assert segs[1..] == [segs[1]];
      assert Join(" ", segs) == segs[0] + " " + segs[1];
    }
  }

  /** The column body: segments joined by a line break and padding, then the
      closing bracket. */
  lemma ColumnBodyLines(pad: string, segs: seq<string>)
    requires LineFree(pad)
    requires |segs| >= 2
    requires forall k :: 0 <= k < |segs| ==> LineFree(segs[k])
    ensures var lines := Lines(Join("\n" + pad, segs) + ">");
      var n := |segs|;
      && |lines| == n
      && lines[0] == segs[0]
      && (forall k :: 0 < k < n - 1 ==> lines[k] == pad + segs[k])
      && lines[n - 1] == pad + segs[n - 1] + ">"
  {
    var n := |segs|;
    var body := Join("\n" + pad, segs);
    LinesOfPaddedJoin(pad, segs);
    var lb := Lines(body);
    LinesAppend(body, ">");
    var lc := Lines(body + ">");
    assert lc[0] == lc[..n - 1][0] == lb[..n - 1][0];
    forall k | 0 < k < n - 1 ensures lc[k] == pad + segs[k] {
      assert lc[k] == lc[..n - 1][k] == lb[..n - 1][k];
    }
  }

  /** With more than two fields and no line break in the class name or any
      segment, there is one line per field: the first after the opening, every
      later one indented by exactly the width of the opening, so all fields
      start in the same column; the closing bracket ends the last line. */
  lemma LayoutColumns(clsName: string, segs: seq<string>)
    requires |segs| > 2
    requires LineFree(clsName)
    requires forall k :: 0 <= k < |segs| ==> LineFree(segs[k])
    ensures var lines := Lines(Layout(clsName, segs));
      var n := |segs|;
      var width := |"<" + clsName + " "|;
      && |lines| == n
      && lines[0] == "<" + clsName + " " + segs[0]
      && (forall k :: 0 < k < n - 1 ==> lines[k] == Spaces(width) + segs[k])
      && lines[n - 1] == Spaces(width) + segs[n - 1] + ">"
  {
    var opening := Opening(clsName);
    var pad := Spaces(|opening|);
    var rest := Join("\n" + pad, segs) + ">";
    ColumnBodyLines(pad, segs);
    assert Layout(clsName, segs) == opening + rest;
    LinesPrepend(opening, rest);
    var lines, lc := Lines(opening + rest), Lines(rest);
    forall k | 0 < k < |segs| ensures lines[k] == lc[k] {
      assert lines[k] == lines[1..][k - 1] == lc[1..][k - 1];
    }
  }

  /** When no segment holds a line break, the text is multi-line exactly when
      there are more than two fields. */
  lemma LayoutMultilineIff(clsName: string, segs: seq<string>)
    requires LineFree(clsName)
    requires forall k :: 0 <= k < |segs| ==> LineFree(segs[k])
    ensures !LineFree(Layout(clsName, segs)) <==> |segs| > 2
  {
    var s := Layout(clsName, segs);
    SingleLineIff(s);
    if |segs| > 2 {
      LayoutColumns(clsName, segs);
    } else {
      JoinLineFree(" ", segs);
      assert s == Opening(clsName) + Join(" ", segs) + ">";
    }
  }

  /** A segment is free of line breaks when its name and rendered value are. */
  lemma SegmentLineFree(name: string, shown: string)
    requires LineFree(name) && LineFree(shown)
    ensures LineFree(name + "=" + shown)
  {
    var s := name + "=" + shown;
    forall i | 0 <= i < |s| ensures s[i] != '\n' {
      if i < |name| {
        assert s[i] == name[i];
      } else if i > |name| {
        assert s[i] == shown[i - |name| - 1];
      }
    }
  }

  /** The shown fields hold no line break: neither their names nor the
      rendered values of those the instance has. Attributes that are not shown
      (`__repr__`, `__doc__`, ...) do not matter. */
  predicate ShownLineFree(names: seq<string>, attrs: seq<Attribute>) {
    forall k :: 0 <= k < |names| ==>
      && LineFree(names[k])
      && (HasAttr(attrs, names[k]) ==> LineFree(FormatValue(attrs[FindAttr(attrs, names[k]).value].value)))
  }

  /** Every segment `Fields` produces is free of line breaks when the shown
      fields are. */
  lemma SegmentsLineFree(names: seq<string>, attrs: seq<Attribute>)
    requires ShownLineFree(names, attrs)
    requires Fields(names, attrs).Ok?
    ensures var segs := Fields(names, attrs).value;
      forall k :: 0 <= k < |segs| ==> LineFree(segs[k])
  {
    var segs := Fields(names, attrs).value;
    forall k | 0 <= k < |segs| ensures LineFree(segs[k]) {
      var i := FindAttr(attrs, names[k]).value;
      assert segs[k] == Segment(names[k], attrs[i].value);
      SegmentLineFree(names[k], FormatValue(attrs[i].value));
    }
  }

  /** `repr` succeeds whenever every given field name is in the attribute list
      (and so always when none is given, because every listed attribute resolves). */
  lemma ReprResolves(clsName: string, args: seq<string>, attrs: seq<Attribute>)
    requires forall k :: 0 <= k < |args| ==> HasAttr(attrs, args[k])
    ensures Repr(clsName, args, attrs).Ok?
  {
    if |args| > 0 {
      assert FieldNames(args, attrs) == args;
    }
  }

  /** For an instance whose class name and shown fields hold no line break, a
      successful `repr` is multi-line exactly when more than two fields are
      shown. */
  lemma ReprMultilineIff(clsName: string, args: seq<string>, attrs: seq<Attribute>)
    requires LineFree(clsName)
    requires ShownLineFree(FieldNames(args, attrs), attrs)
    ensures Repr(clsName, args, attrs).Ok? ==>
      (!LineFree(Repr(clsName, args, attrs).value) <==> |FieldNames(args, attrs)| > 2)
  {
    var names := FieldNames(args, attrs);
    if Repr(clsName, args, attrs).Ok? {
      SegmentsLineFree(names, attrs);
      LayoutMultilineIff(clsName, Fields(names, attrs).value);
    }
  }

  /** A line made of a prefix, a segment and possibly more starts with the
      prefix followed by how the segment starts. */
  lemma PrefixedStart(pad: string, seg: string, tail: string, q: string)
    requires StartsWith(seg, q)
    ensures StartsWith(pad + seg + tail, pad + q)
  {
    assert (pad + seg + tail)[..|pad + q|] == pad + seg[..|q|];
  }

  /** Every segment starts with its field name and `=`. */
  lemma SegmentsNamed(names: seq<string>, attrs: seq<Attribute>)
    requires Fields(names, attrs).Ok?
    ensures var segs := Fields(names, attrs).value;
      forall k :: 0 <= k < |segs| ==> StartsWith(segs[k], names[k] + "=")
  {
    var segs := Fields(names, attrs).value;
    forall k | 0 <= k < |segs| ensures StartsWith(segs[k], names[k] + "=") {
      var p := names[k] + "=";
      assert segs[k][..|p|] == p;
    }
  }

  /** Lines that are a prefix and then a segment start with the prefix and the
      segment's field name. */
  lemma LineStarts(lines: seq<string>, segs: seq<string>, names: seq<string>, opening: string, pad: string)
    requires |lines| == |segs| == |names| >= 2
    requires forall k :: 0 <= k < |segs| ==> StartsWith(segs[k], names[k] + "=")
    requires lines[0] == opening + segs[0]
    requires forall k :: 0 < k < |segs| - 1 ==> lines[k] == pad + segs[k]
    requires lines[|segs| - 1] == pad + segs[|segs| - 1] + ">"
    ensures StartsWith(lines[0], opening + names[0] + "=")
    ensures forall k :: 0 < k < |names| ==> StartsWith(lines[k], pad + names[k] + "=")
  {
    var n := |segs|;
    PrefixedStart(opening, segs[0], "", names[0] + "=");
    assert opening + segs[0] == opening + segs[0] + "";
    forall k | 0 < k < n ensures StartsWith(lines[k], pad + names[k] + "=") {
      if k < n - 1 {
        PrefixedStart(pad, segs[k], "", names[k] + "=");
        assert pad + segs[k] == pad + segs[k] + "";
      } else {
        PrefixedStart(pad, segs[k], ">", names[k] + "=");
      }
    }
  }

  /** In the column layout, every line starts with its field's name: the first
      after the opening, every later one after padding as wide as the opening. */
  lemma LayoutColumnStarts(clsName: string, segs: seq<string>, names: seq<string>)
    requires |segs| == |names| > 2
    requires LineFree(clsName)
    requires forall k :: 0 <= k < |segs| ==> LineFree(segs[k]) && StartsWith(segs[k], names[k] + "=")
    ensures var lines := Lines(Layout(clsName, segs));
      && |lines| == |names|
      && StartsWith(lines[0], "<" + clsName + " " + names[0] + "=")
      && forall k :: 0 < k < |names| ==> StartsWith(lines[k], Spaces(|clsName| + 2) + names[k] + "=")
  {
    LayoutColumns(clsName, segs);
    LineStarts(Lines(Layout(clsName, segs)), segs, names, "<" + clsName + " ", Spaces(|clsName| + 2));
  }

  /** For such an instance with more than two fields, a successful `repr` has
      one line per field, and every field after the first starts on its own
      line right after `len(cls_name) + 2` blanks, the column of the first. */
  lemma ReprColumns(clsName: string, args: seq<string>, attrs: seq<Attribute>)
    requires LineFree(clsName)
    requires ShownLineFree(FieldNames(args, attrs), attrs)
    ensures var names := FieldNames(args, attrs);
      Repr(clsName, args, attrs).Ok? && |names| > 2 ==>
        var lines := Lines(Repr(clsName, args, attrs).value);
        && |lines| == |names|
        && StartsWith(lines[0], "<" + clsName + " " + names[0] + "=")
        && forall k :: 0 < k < |names| ==> StartsWith(lines[k], Spaces(|clsName| + 2) + names[k] + "=")
  {
    var names := FieldNames(args, attrs);
    if Repr(clsName, args, attrs).Ok? && |names| > 2 {
      SegmentsLineFree(names, attrs);
      SegmentsNamed(names, attrs);
      LayoutColumnStarts(clsName, Fields(names, attrs).value, names);
    }
  }
}
