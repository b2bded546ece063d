# magic_repr: a model of the `__repr__` builder

`magic_repr` gives a Python class a readable `__repr__`. `make_repr(*fields)`
returns a method that presents an instance as `<ClassName field=value ...>`.

- Each value is rendered by `format_value`: a byte string as `'…'`, a text
  string as `u'…'`, anything else by its own `repr`.
- The fields are the names given to `make_repr`, in that order. With no names
  given they are inferred: the public (no leading `_`), non-callable
  attributes, sorted.
- One or two fields share a single row. When there are more, each later field
  goes on a line of its own, indented by `len(cls_name) + 2` blanks, so that
  every field starts in the same column as the first.

The model is made of pure functions and lemmas in three modules:

- `PyText` (`py_text.dfy`) holds the Python built-ins the builder uses:
  - `str.startswith`, `' ' * n` and `sep.join`;
  - `split('\n')` as `Lines`;
  - `sorted` over names, as insertion sort under lexicographic order.
- `MagicRepr` (`magic_repr.dfy`) holds `format_value` and `make_repr`'s
  method, split into its steps:
  - field selection (`FieldNames`);
  - rendering of `name=value` segments (`Fields`);
  - the delimiter and the wrapping (`Layout`);
  - the whole call (`Repr`).

  It also holds the layout properties, both for a given list of segments and
  for a whole instance.
- `ReprScenarios` (`repr_scenarios.dfy`) holds the cases of the repository's
  test suite that this version of the builder covers. Each is worked out as a
  lemma about `Repr`.

Python's run-time introspection is replaced by inputs:

- `self.__class__.__name__` becomes the class name.
- `dir(self)` becomes a sequence of `Attribute(name, isCallable, value)`, in the
  order `dir` lists them.
- `getattr` becomes the first attribute of that name.
- `callable` becomes the `isCallable` flag.

If a given field name is not an attribute, `getattr` raises `AttributeError`.
The model returns that as `Err(AttributeError(name))`.

The test suite expects a richer layout than this version of the code has
(tests/test_repr.py:124-165, 314-351):

- a multi-line value forces column mode;
- continuation lines of a multi-line value are padded;
- an explicit delimiter can be given.

`src/magic_repr/__init__.py` picks the column layout only by the number of
fields (line 42), never pads inside a value, and takes no delimiter.

## Model

| member | source | states |
|---|---|---|
| PyText.StartsWithIff | src/magic_repr/__init__.py:33 | `s.startswith(p)` (`StartsWith`) holds exactly when `p` is a prefix of `s`: `s` is `p` followed by some rest |
| PyText.Spaces | src/magic_repr/__init__.py:45 | `' ' * n` has length `n` and holds only blanks |
| PyText.SortStrings | src/magic_repr/__init__.py:40 | `sorted` returns an ascending list that is a permutation of its input |
| PyText.Insert | src/magic_repr/__init__.py:40 | inserting into an ascending list keeps it ascending and adds exactly that one element |
| PyText.SortedUnique | src/magic_repr/__init__.py:40 | two ascending lists with the same elements are equal, so the sort's output is determined by its input's elements |
| PyText.LexTotal | src/magic_repr/__init__.py:40 | the string order `sorted` uses compares any two names |
| PyText.LexAntisymmetric | src/magic_repr/__init__.py:40 | two names each at most the other are equal |
| PyText.LexTransitive | src/magic_repr/__init__.py:40 | the string order is transitive |
| PyText.HeadIsLeast | src/magic_repr/__init__.py:40 | the first element of an ascending list is at most every element |
| PyText.JoinShape | src/magic_repr/__init__.py:53 | `sep.join(xs)` (`Join`) is empty for no items; otherwise it starts with the first item and is as long as all items plus one separator between each pair |
| PyText.SingleLineIff | src/magic_repr/__init__.py:42-47 | `s.split('\n')` has one part exactly when `s` holds no line break |
| PyText.JoinLines | src/magic_repr/__init__.py:53 | `'\n'.join(s.split('\n')) == s`: the split loses nothing |
| PyText.LinesPrepend | src/magic_repr/__init__.py:55-58 | text without a line break put in front extends only the first line |
| PyText.LinesAppend | src/magic_repr/__init__.py:55-58 | text without a line break put behind extends only the last line |
| PyText.LinesAfterBreak | src/magic_repr/__init__.py:45 | a line, a break and more text split into that line and the lines of the rest |
| PyText.LinesOfPaddedJoin | src/magic_repr/__init__.py:45-53 | joining line-free items with `'\n' + pad` gives one line per item; every item after the first is preceded by `pad` |
| PyText.JoinLineFree | src/magic_repr/__init__.py:47-53 | joining line-free items with a line-free separator gives a line-free text |
| MagicRepr.FormatValue | src/magic_repr/__init__.py:8-19 | a byte string is shown as `'` + content + `'`; otherwise a text string is shown as `u'` + content + `'`; otherwise the value's own repr is shown unchanged. The checks are made in that order |
| MagicRepr.FormatValueRoundTrip | src/magic_repr/__init__.py:11-17 | the rendering of a byte or text string gives back both the kind and the content, so the two quote styles never collide |
| MagicRepr.Names | src/magic_repr/__init__.py:39 | `dir(self)` lists one name per attribute, in order |
| MagicRepr.FindAttr | src/magic_repr/__init__.py:49 | `getattr` fails exactly when no attribute has the name; otherwise it finds the first attribute of that name |
| MagicRepr.GoodNameFirst | src/magic_repr/__init__.py:33-37 | a name is good (`GoodName`) exactly when it does not start with `_` and the first attribute of that name (the one `getattr` finds) is not callable |
| MagicRepr.FilterGood | src/magic_repr/__init__.py:33-39 | `filter(good_name, names)` keeps every occurrence of a good name and none of the others |
| MagicRepr.InferFieldNames | src/magic_repr/__init__.py:32-40 | the inferred fields are ascending and hold each good name of `dir` as often as `dir` lists it, and no other name |
| MagicRepr.FieldNames | src/magic_repr/__init__.py:30-40 | with names given, they are used as given, in the caller's order; otherwise the fields are ascending and are exactly the listed names that are good |
| MagicRepr.InferredNamesResolve | src/magic_repr/__init__.py:32-49 | every inferred field is an attribute the instance has |
| MagicRepr.NameCountAtMostOne | src/magic_repr/__init__.py:39 | when `dir` lists each attribute once, no name occurs twice in it |
| MagicRepr.NoRepeats | src/magic_repr/__init__.py:40 | a list in which no element occurs twice has no two positions with the same name |
| MagicRepr.InferredMember | src/magic_repr/__init__.py:33-39 | a name is inferred exactly when some attribute has it, it does not start with `_`, and that attribute is not callable |
| MagicRepr.InferFieldNamesExact | src/magic_repr/__init__.py:32-40 | the inferred fields are exactly the public, non-callable attributes (both directions), with no repeats |
| MagicRepr.InferFieldNamesUnique | src/magic_repr/__init__.py:40 | any ascending list with the chosen names' counts is the inferred list, whatever order `dir` used |
| MagicRepr.Delimiter | src/magic_repr/__init__.py:42-47 | more than two fields: a line break, then as many blanks as `<` + name + space is wide; otherwise one blank |
| MagicRepr.Fields | src/magic_repr/__init__.py:49-52 | succeeds exactly when every field is an attribute; then it yields one `name=format_value(value)` segment per field, in field order |
| MagicRepr.FieldsFirstMissing | src/magic_repr/__init__.py:49-50 | a failure names the first field the instance lacks; every earlier field resolves |
| MagicRepr.SegmentParts | src/magic_repr/__init__.py:52 | a segment (`Segment`) is the field name, then `=`, then `format_value` of its value, and nothing else |
| MagicRepr.OpeningParts | src/magic_repr/__init__.py:55-58 | the opening (`Opening`) is `<`, the class name and one blank, and nothing else |
| MagicRepr.Layout | src/magic_repr/__init__.py:53-58 | the text starts with `<` + class name + a blank and ends with `>` |
| MagicRepr.Repr | src/magic_repr/__init__.py:27-59 | succeeds exactly when every field resolves, and always when no names were given, because every inferred name is in the supplied attribute list. The text is the layout of the field segments; an error is the first lookup failure |
| MagicRepr.LayoutNoFields | src/magic_repr/__init__.py:53-58 | zero fields give `<Name >` |
| MagicRepr.LayoutRow | src/magic_repr/__init__.py:46-58 | one field gives `<Name seg>`; two give `<Name seg1 seg2>`, on one row |
| MagicRepr.ColumnBodyLines | src/magic_repr/__init__.py:45-53 | the column body plus `>` has one line per segment: the first bare, every later one after the padding, `>` at the end |
| MagicRepr.LayoutColumns | src/magic_repr/__init__.py:42-58 | over two fields, all line-free: one line per field. The first line is `<Name ` + first segment; every later line is `len(Name)+2` blanks + its segment; `>` ends the last |
| MagicRepr.LayoutMultilineIff | src/magic_repr/__init__.py:42-58 | with line-free class name and segments, the text holds a line break exactly when there are more than two fields |
| MagicRepr.SegmentLineFree | src/magic_repr/__init__.py:52 | `name=value` has no line break when the name and the value text have none |
| MagicRepr.SegmentsLineFree | src/magic_repr/__init__.py:49-52 | all segments are line-free when the shown fields' names and the rendered values of those fields are; other attributes do not matter |
| MagicRepr.SegmentsNamed | src/magic_repr/__init__.py:52 | each segment starts with its field's name and `=` |
| MagicRepr.PrefixedStart | src/magic_repr/__init__.py:45-58 | a prefix placed before a segment is followed by the segment's own start |
| MagicRepr.LineStarts | src/magic_repr/__init__.py:45-58 | lines of the column shape start with the opening or the padding, then the field's name and `=` |
| MagicRepr.LayoutColumnStarts | src/magic_repr/__init__.py:42-58 | in the column layout every field's name starts a line, in the column of the first field |
| MagicRepr.ReprResolves | src/magic_repr/__init__.py:30-50 | `repr` succeeds whenever every given field name is in the supplied attribute list, so always when none is given, since every listed attribute resolves |
| MagicRepr.ReprMultilineIff | src/magic_repr/__init__.py:27-58 | when the class name and the shown fields (their names and rendered values) are line-free, a successful `repr` is multi-line exactly when more than two fields are shown; hidden attributes such as `__repr__` may hold line breaks |
| MagicRepr.ReprColumns | src/magic_repr/__init__.py:27-58 | under the same condition, a successful `repr` of more than two fields has as many lines as fields. Line 0 starts with `<Name name_0=`. Line `k > 0` starts with `len(cls_name)+2` blanks and then `name_k=` |
| ReprScenarios.SortsAlphabetically | tests/test_repr.py:18-29 | `foo=1, bar=2` with no names given gives `<TestMe bar=2 foo=1>` |
| ReprScenarios.IgnoresUnderscored | tests/test_repr.py:32-43 | `_bar` is not shown: `<TestMe foo=1>` |
| ReprScenarios.IgnoresMethods | tests/test_repr.py:46-59 | the method `bar` is not shown: `<TestMe foo=1>` |
| ReprScenarios.QuotesTextAndBytes | tests/test_repr.py:62-87 | text gives `<TestMe foo=u'бар'>`; bytes give `<TestMe foo='бар'>` |
| ReprScenarios.ListShownByRepr | tests/test_repr.py:182-191 | a list is shown by its repr: `<TestMe foo=[0, 1, 2]>` |
| ReprScenarios.TwoFieldsInRow | tests/test_repr.py:90-101 | `make_repr('foo', 'bar')` gives `<TestMe foo=u'фу' bar=u'бар'>` |
| ReprScenarios.ThreeFieldsInColumn | tests/test_repr.py:104-121 | three fields give three lines, the later two indented by 8 blanks |
| ReprScenarios.ThreeShownLineFree | tests/test_repr.py:104-121 | the three shown fields of that instance are line-free although its bound `__repr__` renders with a line break, so the line lemmas apply to it |
| ReprScenarios.MissingFieldRaises | src/magic_repr/__init__.py:49 | naming a field the instance lacks gives `AttributeError` for that name |

## Left out

- UTF-8 decoding and encoding (`src/magic_repr/__init__.py:14, 19, 59`) are not modelled. Strings are sequences of characters, already decoded, and the result is returned as text rather than as encoded bytes.
- Byte strings are implicitly decoded as ASCII when `cls_name` or a field name is a byte string and is put into the unicode format strings (`src/magic_repr/__init__.py:52, 55`). A name outside ASCII then raises `UnicodeDecodeError`. The model treats names as text and has no such error.
- The model follows Python 2, which `src/magic_repr/__init__.py:11-19` is written for (`unicode`, `str.decode`). Under Python 3, `unicode` is undefined and `str` has no `decode`, so the source does not run there.
- The `repr` of an arbitrary object is Python's own. The model carries it as the opaque text of `Other`.
- `dir`, `getattr`, `callable` and `self.__class__.__name__` are run-time introspection. They are inputs, as described above. Properties such as a `__getattr__` that computes values, or `dir` listing a name twice, are only as good as the attribute list supplied.
- The scenario instances list only a few of the dunder names `dir` reports for every instance (`__init__`, `__module__`, and `__repr__` in the three-field case). Every dunder starts with `_`, so field inference never shows one. Their values may hold line breaks (the bound `__repr__` renders as the instance's own multi-line text), so the line lemmas constrain only the shown fields.
- The attribute list assumes that every listed name can be looked up and has a value. In Python, `dir` can list a public name whose `getattr` raises, such as an unset `__slots__` member or a property that raises. The source then raises too: with no names given, in `is_method`'s `getattr` while filtering (`src/magic_repr/__init__.py:34-39`); with names given, in the `getattr` for the segments (line 49). The model has no such attribute, so `Repr` with no names given always succeeds. `Repr`, `ReprResolves` and `InferredNamesResolve` promise success only for the supplied list.
- `make_repr` returning `method`, and its attachment as `__repr__` (lines 22-27, 61), are closure glue. `Repr` takes the arguments `make_repr` captured.
- The generator and `starmap` at lines 49-52 are lazy. `join` forces them in field order, so the first failing `getattr` is the one raised. The model's `Fields` checks the fields in the same order and keeps only that outcome, not the laziness.
- `sorted` compares Python strings by code point. `PyText.LexLessEq` compares Dafny characters the same way, element by element, with a proper prefix first.
- The test suite also covers things this source does not define: `serialize_list`, `serialize_text`, `is_multiline`, `padding_adder` and `ON_PYTHON2` (tests/test_repr.py:8-15). It also tests nested alignment, vertical long lists, pretty-printed dicts and callable fields (tests/test_repr.py:124-165, 194-264, 268-437). None of these are modelled, because this version of the builder has no such behaviour.
- The test `test_when_value_is_in_the_list` depends on the `repr` of a Python list, which is not part of this model.
