# yFiles declaration generator — a Dafny model

This project models the build-time code generator of the yFiles-for-Kotlin
bindings in Dafny. The generator has two front ends.

1. **The JSDoc reader** (`build.gradle.kts`) takes the exported yFiles
   declaration file. That file is a sequence of comment blocks, each followed
   by one signature line. The reader:
   - reads the blocks (`DeclarationReader`) and splits each signature (`Data`);
   - classifies every block as one of nine declaration kinds;
   - cuts the qualified name into owning type and member name;
   - parses JSDoc type strings (`.<`/`>` generics, `|` unions,
     `function(…):R` types, `...` varargs, `[name=default]` optionals);
   - derives parameters, including the expansion of a single `options`
     object into a map parameter plus an adapter;
   - makes up a class for every constructor no class block declares;
   - answers the override question through `ClassRegistryImpl`;
   - groups the declarations into one file per class, interface or enum,
     with sorted and de-duplicated constants and functions.
2. **The JSON manifest correction layer** (`buildSrc`) patches the
   machine-readable API description before it is used:
   - text rewrites of the raw JSON (`Insets`, `yfiles.system`, `Class`);
   - flattening of namespaces into one `types` array;
   - the function-signature map turned into an array;
   - the editing helpers of `YJson.kt`;
   - the `ElementId` retyping;
   - the `IComparable<Self>` normalisation.

Every exception of the source becomes an `Err` of a `Result`. That covers a
`GradleException`, a failed `require`, an empty `first`, an index out of
bounds and a failed cast. Modules follow the program:

| module | file | models |
|---|---|---|
| `Wrappers` | wrappers.dfy | `Option`, `Result` |
| `Text` | text.dfy | `indexOf`, `lastIndexOf`, `split`, `joinToString`, `replace`, `trim` on `seq<char>` |
| `Seqs` | seqs.dfy | insertion-ordered `union`, `filter`, fail-fast `map` |
| `StringUtil` | string_util.dfy | the `StringUtil` object |
| `TypeParser` | type_parser.dfy | `parseType`, `parseGenericParameters`, `firstGenericType`, `parseFunctionType`, `findType`, the standard type map |
| `Ir` | ir.dfy | `Data`, `Parameter`, the declaration variants, tag-line lookups |
| `Hacks` | hacks.dfy | the `Hacks` object, with its tables as lookup functions |
| `Params` | params.dfy | `parseParamLine`, `calculateParameters`, `parametersString` |
| `Declarations` | declarations.dfy | `Data.parse`, `Declaration.parse`, name decomposition, per-kind construction |
| `Reader` | reader.dfy | `DeclarationReader.read` and the read loop |
| `Registry` | registry.dfy | `ClassRegistryImpl` and `overridden()` |
| `Fqn` | fqn.dfy | `FQN` (both copies) |
| `Order` | order.dfy | `sortedBy { it.name }` |
| `Files` | files.dfy | synthetic classes, `FileGenerator` grouping, the `GeneratedFile` partitions |
| `Json` | json.dfy | the `org.json` tree: objects as association lists |
| `YJson` | yjson.dfy | `YJson.kt` |
| `JsonReader` | json_reader.dfy | `JsonReader.kt` |
| `ElementIdHacks` | element_id_hacks.dfy | `applyElementIdHacks` |
| `ComparableHacks` | comparable_hacks.dfy | `applyComparableHacks`, `configureCompareTo` |

Where the code's behaviour differs from what its names and comments
suggest, the model follows the code:

- **Generic argument splitting.** `firstGenericType` picks its "minimum"
  index with a comparator that returns `Math.min(o1, o2)`, and that does
  not compute a minimum. The loop is modelled literally
  (`TypeParser.MinWithQuirkOfThree`, `TypeParser.MinWithQuirkIsNotMinimum`).
  For a string shorter than the 100000 sentinel the loop returns the whole
  string, or `""` when the string starts with a comma
  (`TypeParser.FirstGenericTypeQuirk`). So `Map.<K, List.<V>>` gets ONE
  generic argument, `K, List.<V>`, not two
  (`TypeParser.FirstGenericTypeKeepsTopLevelComma`,
  `TypeParser.NestedGenericsSingleArgument`). Only an argument list without
  any `.<` is split at its commas.
- **Adapter parameters.** The adapter of an options expansion gets only the
  renamed `options.x` fields. There are no leading parameters, because the
  expansion demands exactly one formal parameter.
- **Function de-duplication.** Where the static and member lists of a file
  are built as sets, plain functions are equal when owner, name and
  `parametersString(false)` agree (`Files.DedupByKey`). Adapters never enter
  those lists: they are de-duplicated while a class file is rendered
  (`ClassFile.adapters()` unites the constructor adapters with the
  adapters of static functions, after dropping those equal to a static
  function, and `filterConstructorAdapters` collects into a set), and rendering is not part of this model.
- **Override walk.** The walk matches by name only and never asks about
  the type itself. A type with no class, interface or enum block is an
  error, including the type the question starts from.

Several helpers the correction layer calls are not part of this model. They
are modelled by their evident meaning:

- `objects`, `firstWithName`, `flatMap` and `optFlatMap` on JSON objects;
- `source.type(s)`;
- the `J_*` key constants and the type-name constants.

Only the constants' distinctness matters to the proofs.

## Model

| member | source | states |
|---|---|---|
| StringUtil.Between | build.gradle.kts:946-962 | fails unless `start` occurs and `end` occurs (first or last occurrence as asked) no earlier than the end of the first `start`; the result is exactly the text after the first `start` and ends where that chosen `end` occurrence begins |
| StringUtil.HardBetween | build.gradle.kts:964-974 | succeeds exactly when the string starts with `start` and ends with `end` without overlap, and then `start + result + end` is the string |
| StringUtil.HardBetweenRoundTrip | build.gradle.kts:964-974 | wrapping any body in `start`/`end` and cutting it out again gives the body back |
| StringUtil.Till | build.gradle.kts:976-983 | succeeds exactly when `end` occurs; the result is the text before its first occurrence |
| StringUtil.From | build.gradle.kts:985-992 | succeeds exactly when `start` occurs; the result is everything after the LAST occurrence of `start` |
| StringUtil.From2 | build.gradle.kts:994-1001 | succeeds exactly when `start` occurs; the result is everything after its first occurrence |
| Seqs.Dedup | build.gradle.kts:661-665 | a set `union` keeps the same elements, without duplicates |
| Seqs.DedupSnoc | build.gradle.kts:661-665 | adding an element to a set union appends it only when it is new, so first-insertion order is kept |
| Seqs.DedupDistinct | build.gradle.kts:661-665 | a list without duplicates is unchanged by the union |
| Seqs.Filter | build.gradle.kts:768-795 | `filter` keeps exactly the elements that satisfy the predicate |
| Seqs.FilterPartition | build.gradle.kts:777-795 | filtering by a predicate and by its negation splits a list into two parts whose multisets add up to it |
| Seqs.FilterAppend | build.gradle.kts:768-795 | filtering a concatenation concatenates the filtered parts |
| Seqs.MapAll | build.gradle.kts:476 | a fail-fast `map` succeeds exactly when every element succeeds, and the i-th result is the i-th element's result |
| TypeParser.Lookup | build.gradle.kts:130-152 | a lookup in `STANDARD_TYPE_MAP` finds a value exactly when the key is listed, and the value is listed with it |
| TypeParser.MinWithQuirkOfThree | build.gradle.kts:297-298 | the fold with the `Math.min` comparator over three slots picks the first if it is 0, else the last positive one |
| TypeParser.MinWithQuirkIsNotMinimum | build.gradle.kts:297-298 | the selection is not a minimum: on `[1, 3, 6]` it picks 6 |
| TypeParser.SlotOf | build.gradle.kts:304 | `indexes.indexOf(index)`: the first slot holding the value, or -1 when none does |
| TypeParser.FirstGenericStep | build.gradle.kts:286-309 | a loop round that returns gives a prefix of the argument list, cut just before a comma that has text after it |
| TypeParser.Run | build.gradle.kts:285-310 | the loop's result is the return value of one of its rounds |
| TypeParser.FirstGenericLoop | build.gradle.kts:281-311 | the loop returns a prefix of the argument list, cut just before a comma when it is not the whole list |
| TypeParser.FirstGenericType | build.gradle.kts:281-311 | the first generic argument is a prefix of the list, cut just before a comma when it is not the whole list |
| TypeParser.FirstGenericStepAdvances | build.gradle.kts:286-309 | every round either returns the whole list or moves the index forward while a bound on the remaining rounds shrinks |
| TypeParser.RunWhole | build.gradle.kts:285-310 | a loop whose rounds all advance or return the whole list returns the whole list once given enough rounds |
| TypeParser.FirstGenericLoopWhole | build.gradle.kts:281-311 | started at index 0, the loop on a list not starting with a comma returns the whole list |
| TypeParser.FirstGenericTypeQuirk | build.gradle.kts:281-311 | below the 100000 sentinel, `firstGenericType` returns `""` for a list of two or more characters starting with a comma, and the whole list otherwise |
| TypeParser.FirstGenericTypeKeepsTopLevelComma | build.gradle.kts:281-311 | `K, List.<V>` is not split at its top-level comma |
| TypeParser.ParseType | build.gradle.kts:191-209 | a type without the `.<` marker always parses |
| TypeParser.ParseGenericParameters | build.gradle.kts:265-279 | an argument list parses to at least one type; a list without the `.<` marker is split at every comma and each piece is parsed (pieces and values in TypeParser.ParseSplitPieces) |
| TypeParser.ParseAll | build.gradle.kts:268 | one parsed type per input piece (the value of each is stated by TypeParser.ParseAllPieces) |
| TypeParser.ParseSplit | build.gradle.kts:268 | one parsed type per piece of the split (the value of each is stated by TypeParser.ParseSplitPieces) |
| TypeParser.ParseSplitPieces | build.gradle.kts:268 | the split parses exactly when every comma piece parses, and the i-th result is the parse of the i-th piece |
| TypeParser.ParseAllPieces | build.gradle.kts:268 | `map { parseType(it) }` succeeds exactly when every piece parses, and the i-th result is the parse of the i-th piece |
| TypeParser.PlainArguments | build.gradle.kts:265-279 | a comma-joined list of plain names that are not standard types parses back to exactly those names |
| TypeParser.GenericTypeOf | build.gradle.kts:191-209 | `M.<A,B>` with plain names that are not standard types parses to `M<A, B>` |
| TypeParser.ParseFunctionType | build.gradle.kts:313-317 | succeeds exactly when the text between `function(` and the last `):` splits at commas into parsable types and the text after the last `): ` parses; the result is `(` + those types joined by `, ` + `) -> ` + the parsed result type |
| TypeParser.FunctionTypeWith | build.gradle.kts:255-258 | the same for any separator: the success condition is that the markers delimit a list of parsable pieces and a parsable result type, and the value is the rendered arrow type |
| TypeParser.ArrowTypeReadBack | build.gradle.kts:316 | the rendered `(A, B) -> R` reads back: the text between `(` and the first `) -> ` is the parameter list, which splits at `, ` into the parameter types again (when there is one or more), and the text after it is the result type, provided no parameter type holds `,` or `)` |
| TypeParser.FindType | build.gradle.kts:179-181 | succeeds exactly when both braces occur with the first `{` before the first `}`; the type is the text between them |
| TypeParser.FindTypeOf | build.gradle.kts:179-181 | the type of a line `pre{T}post` whose prefix has no braces and whose type has no `}` is `T` |
| TypeParser.TypeLineRead | build.gradle.kts:183-189 | a tag line `pre{T}post` with a non-function type parses as `T` itself would |
| TypeParser.FunctionTypeRoundTrip | build.gradle.kts:313-317 | `function(A,B): R` with plain names that are not standard types is rendered `(A, B) -> R` |
| TypeParser.UnionFirstAlternative | build.gradle.kts:193-195 | a union type parses exactly as its first alternative |
| TypeParser.StandardTypesArePlain | build.gradle.kts:130-152 | every standard key and value is a plain name, and no value is itself a key, so mapping is done once |
| TypeParser.StandardTypeMapped | build.gradle.kts:197-200 | a name listed in the standard map parses to its mapped name |
| TypeParser.PlainNameKept | build.gradle.kts:202-204 | any other name without `|` and `.<` parses to itself |
| TypeParser.ParseNameIdempotent | build.gradle.kts:191-204 | for a type without `.<`, parsing the parsed type changes nothing |
| TypeParser.NestedGenericsSingleArgument | build.gradle.kts:265-279 | an argument list holding `.<` (and not starting with a comma) parses as the single argument `parseType(list)` |
| Ir.TagLines | build.gradle.kts:391 | `lines.filter { startsWith(prefix) }` holds exactly the lines with the prefix; its order and multiplicity are stated by Ir.TagLinesAppend |
| Ir.FirstTagLine | build.gradle.kts:212 | `firstOrNull { startsWith(prefix) }` is empty exactly when no line has the prefix, and otherwise is the line at a position before which no line has the prefix |
| Ir.TagLinesAppend | build.gradle.kts:391 | filtering a concatenation concatenates the filtered parts, so order and multiplicity are kept |
| Ir.FirstTagLineIsFirstFiltered | build.gradle.kts:212 | `firstOrNull` with a prefix is empty exactly when the `filter` is, and otherwise is the head of the `filter` |
| Hacks.HackedParameter | build.gradle.kts:1005-1038 | an ordinary tag line is left to the general rule; a `value` or `options.` tag line takes the table's parameter and fails when the table has none |
| Hacks.HackedReturnType | build.gradle.kts:1074-1091 | a typed `@returns {` line is left to the parser; any other returns line takes the table's type or fails |
| Hacks.ConstTypeKept | build.gradle.kts:1040-1044 | a constant's type without `<T>` is not changed |
| Params.RawParamType | build.gradle.kts:250-261 | the vararg flag is set exactly when the raw type starts with `...` |
| Params.OptionalName | build.gradle.kts:245-249 | a bracketed name token yields a default value |
| Params.NameToken | build.gradle.kts:243 | the name token exists exactly when the line holds `} `, and it holds no space |
| Params.ParseParamLine | build.gradle.kts:236-263 | a `value` tag line succeeds exactly when the hack table has an entry; any ordinary line without `} ` or ` {` fails |
| Params.ParamLineRoundTrip | build.gradle.kts:236-263 | a tag line written from a type, vararg flag, name, default and description parses back to exactly that parameter, whenever the type parses |
| Params.ParseParamLineSteps | build.gradle.kts:243-262 | an ordinary tag line is read as its name token, optional default and raw type |
| Params.RawTypeRead | build.gradle.kts:250-261 | a raw type with a `...` prefix reads as the vararg flag plus the parsed type |
| Params.TokenRead | build.gradle.kts:243-249 | a written name token `[name=default]` reads back as its name and default |
| Params.Get | build.gradle.kts:484 | a lookup in the `associate` map finds a parameter with that name exactly when the name is a key |
| Params.PutGet | build.gradle.kts:476 | adding a pair replaces the value of its key and leaves every other key alone |
| Params.AssociateValues | build.gradle.kts:476 | `associate` maps each name to the LAST tag with that name |
| Params.AssociateNames | build.gradle.kts:476 | the keys of `associate` are the tag names in first-occurrence order |
| Params.FormalNames | build.gradle.kts:471 | the signature value must be `function(…){};`; the names are the non-empty trimmed comma pieces |
| Params.FormalNamesRoundTrip | build.gradle.kts:471 | writing non-empty trimmed comma-free names into `function(…){};` and reading them back gives the names |
| Params.TagParameters | build.gradle.kts:476 | succeeds exactly when every `@param` line parses, and then the i-th parameter is the parse of the i-th `@param` line |
| Params.ParseParamLines | build.gradle.kts:476 | each tag line is read on its own, in order; one failure fails all |
| Params.CalculateParameters | build.gradle.kts:469-509 | no formal names gives no parameters; otherwise it fails when a tag fails and is the ItemsOf of the formal names and the associated tags: the options expansion when some tag name is dotted, else the formal parameters in order |
| Params.OptionsParameters | build.gradle.kts:478-497 | the options expansion succeeds exactly when there is one formal name, its tag has type `yfiles.lang.Object` and every other tag is dotted; the result is one `Map` parameter keeping its default, plus the other tags renamed |
| Params.Others | build.gradle.kts:489-490 | the tags other than the options parameter itself; as a `filter` in order (Params.OthersIsFilter) |
| Params.OthersIsFilter | build.gradle.kts:489-490 | the other tags are exactly the in-order `filter` on a different name |
| Params.OthersAppend | build.gradle.kts:489-490 | leaving out the options parameter distributes over concatenation, so the order of the tags is kept |
| Params.ItemsOf | build.gradle.kts:478-506 | with a dotted tag name the result is the options expansion; otherwise it succeeds exactly when the formal parameters do, and holds them without an adapter |
| Params.SecondSegment | build.gradle.kts:492 | `split(".")[1]` exists exactly when the name is dotted |
| Params.SecondSegmentOfOption | build.gradle.kts:492 | `options.x` is renamed `x` |
| Params.Renamed | build.gradle.kts:489-494 | every adapter parameter keeps type, default and vararg and takes its second name segment; an undotted name fails |
| Params.FormalParameters | build.gradle.kts:499-506 | succeeds exactly when every formal name has a tag or ends with `Type`; each parameter is its tag, or a `yfiles.lang.Class` parameter for a `…Type` name |
| Params.SignatureKeyIgnoresDefaults | build.gradle.kts:554-579 | the equality key `parametersString(false)` depends only on names, types, varargs, whether there is a default and whether it is `null`; other default texts and the generated flag do not change it |
| Params.DefaultValueWritten | build.gradle.kts:562-574 | with defaults shown, an adapter writes its default value and a declaration writes `definedExternally` |
| Declarations.ParseData | build.gradle.kts:354-368 | no `=` gives the source minus its last character and the null value; one `=` splits name and value; more fail |
| Declarations.ParseDataRoundTrip | build.gradle.kts:361 | `name=value` splits back into name and value |
| Declarations.ParseDataNull | build.gradle.kts:357-359 | `name;` reads as `name` with the null value |
| Declarations.ClassifyFirstMatch | build.gradle.kts:157-176 | the kind chosen is the first kind, in source order, whose test applies |
| Declarations.ConstructorBlockIsNotClass | build.gradle.kts:160-167 | a block with `@constructor` is never a class, and is a constructor unless an earlier test applies |
| Declarations.NamespaceWins | build.gradle.kts:158-159 | a block with `@namespace` is a namespace |
| Declarations.DecomposeName | build.gradle.kts:331-345 | succeeds exactly when the declaration is an instance or its name is dotted; the member name is the last segment; an instance's owner is its full name |
| Declarations.DecomposeNameShape | build.gradle.kts:336-343 | a dotted name is `owner.member` or `owner.prototype.member`, or `prototype.member` with an empty owner |
| Declarations.OwnerWithPrototype | build.gradle.kts:339-343 | a `prototype` before the last segment is dropped from the owner |
| Declarations.BarePrototype | build.gradle.kts:339-343 | `prototype.m` has an empty owner |
| Declarations.PrototypeMemberName | build.gradle.kts:336-343 | `C.prototype.m` has owner `C` and member `m` |
| Declarations.StaticMemberName | build.gradle.kts:336-343 | `C.m` has owner `C` and member `m` when `C` does not end in `prototype` |
| Declarations.GenericString | build.gradle.kts:228-234 | the generic string is empty exactly when there is no `@template` line; its value for `@template A,B` is stated by Declarations.GenericStringOf |
| Declarations.GenericStringOf | build.gradle.kts:220-234 | a first `@template A,B` line gives the generic string `<A, B> ` |
| Declarations.TemplateNames | build.gradle.kts:223 | the text after `@template ` of a template line without a further `@template` is what follows the tag |
| Declarations.ReturnType | build.gradle.kts:211-218 | no `@returns` line gives `Unit`; an untyped one takes the hack table's type or fails; a typed one `@returns {T}` is the parse of that line |
| Declarations.ReturnTypeOfTag | build.gradle.kts:211-218 | a first `@returns {T}` line with a non-function type gives the parse of `T` |
| Declarations.ConstBodyOf | build.gradle.kts:446-453 | a constant needs a `@type` line; its static and protected flags are the presence of those tags (its type is stated by Declarations.ConstBodyType) |
| Declarations.ConstBodyType | build.gradle.kts:446-453 | a constant succeeds exactly when its first `@type` line parses, and its type is that parse with `<T>` widened |
| Declarations.ConstBodyFrom | build.gradle.kts:446-453 | a `@type` line gives a constant exactly when its type parses; the static and protected flags are the presence of those tags |
| Declarations.ConstTypeLine | build.gradle.kts:446-453 | `@type {T}` with a plain non-standard name parses to `T`, which the `<T>` widening leaves alone |
| Declarations.ConstTypeOf | build.gradle.kts:446-453 | `@type {T}` with a plain non-standard name gives a constant of type `T`, with its static and protected flags |
| Declarations.FunctionInfoOf | build.gradle.kts:524-533 | a function's flags come from its tags, its parameters from the computed list, its generics from the table or else the `@template` line; it succeeds exactly when the return type does and carries that return type |
| Declarations.Adapter | build.gradle.kts:535-546 | an adapter exists exactly when there are generated parameters; it is generated, takes them, and keeps the return type, generics and lines |
| Declarations.ParseDeclaration | build.gradle.kts:154-177 | a parsed declaration carries the split signature, the kind classification picks, the owner and member name from decomposition, and (for an instance) its tag lines |
| Declarations.BuildFunction | build.gradle.kts:524-542 | a constructor or function block yields that variant with the decomposed owner and name |
| Declarations.BuildOther | build.gradle.kts:157-176 | every other block yields the variant of its kind with the decomposed owner and name |
| Declarations.BodyOf | build.gradle.kts:396-410 | the body has the requested kind; only a constant can fail; a class, interface or enum keeps its tag lines |
| Declarations.ConstNeedsType | build.gradle.kts:452 | a constant block without a `@type` line fails to parse |
| Declarations.ToClassDec | build.gradle.kts:430-432 | the class made from a constructor has its owner, signature and name, and its class body is read from the constructor's lines |
| Declarations.ExtendedType | build.gradle.kts:380-387 | no extended type for a type the table ignores or one without `@extends`; otherwise it succeeds exactly when the first `@extends` line's type parses, and is that parsed type |
| Declarations.ImplementedTypes | build.gradle.kts:389-393 | the table's list when it has one, else the parse of the `@implements` lines in order |
| Declarations.ParseTypeLines | build.gradle.kts:391-392 | succeeds exactly when every line's type parses, and then the i-th type is the parsed type of the i-th line |
| Declarations.ExtendedTypeOf | build.gradle.kts:380-387 | a first `@extends {T}` line with a plain non-standard name gives the extended type `T` |
| Declarations.FoundTypeKept | build.gradle.kts:183-189 | the braces of a tag line holding a plain non-standard name give that name, and it parses to itself |
| Declarations.ImplementedTypesOf | build.gradle.kts:389-393 | two `@implements {A}` and `@implements {B}` lines give the types `[A, B]`, in that order |
| Declarations.ParseTypeLinesOf | build.gradle.kts:391-392 | lines whose types parse to `ts` give exactly `ts` |
| Reader.Unindent | build.gradle.kts:75 | each tag line loses its three-character indent |
| Reader.ReadTags | build.gradle.kts:68-76 | the tag lines read are the unindented lines up to the comment end, followed by the signature and the remaining lines |
| Reader.ReadBlock | build.gradle.kts:63-76 | a block must start with `/**`, and reading consumes at least three lines |
| Reader.ReadDeclaration | build.gradle.kts:62-77 | reading one declaration consumes at least three lines |
| Reader.ReadAll | build.gradle.kts:26-31 | an empty file has no declarations, and there is at most one per three lines |
| Reader.ReadTagsRoundTrip | build.gradle.kts:68-76 | the tags of a written block are read back, with its signature and whatever follows |
| Reader.ReadBlockRoundTrip | build.gradle.kts:63-76 | a written block is read back as its tags, signature and rest |
| Reader.ReadDeclarationRoundTrip | build.gradle.kts:62-77 | reading a written block gives the declaration of its signature and tags, and the rest |
| Registry.LastInstanceIndex | build.gradle.kts:647-648 | `associateBy` keeps the last instance declaration of a name |
| Registry.InstanceOf | build.gradle.kts:647-648 | an instance is found exactly when some class, interface or enum has that name |
| Registry.FunctionNames | build.gradle.kts:650-656 | the names of the plain (non-constructor) functions a type declares |
| Registry.RawType | build.gradle.kts:664 | a parent type loses its generic arguments from the first `<` |
| Registry.MapRaw | build.gradle.kts:664 | every parent loses its generic arguments |
| Registry.Parents | build.gradle.kts:658-666 | an unknown type fails; the parents are the extended type and the implemented types, de-duplicated in order, without generic arguments |
| Registry.Overridden | build.gradle.kts:668-678 | an unknown type fails; when asked about itself, a type that declares the function answers yes |
| Registry.AnyOverridden | build.gradle.kts:675-677 | no parents answer no |
| Registry.FunctionOverridden | build.gradle.kts:680-682 | a successful answer is yes exactly when some ancestor, reached in one or more parent steps, declares the function |
| Registry.DeclarationOverridden | build.gradle.kts:581-587 | a constructor never overrides; otherwise the answer is yes exactly when the function is not a generated adapter and some ancestor declares it |
| Registry.OverriddenSound | build.gradle.kts:668-678 | the walk answers yes exactly when the type itself (if asked) or some ancestor declares the function |
| Registry.AnySound | build.gradle.kts:675-677 | `any` over the parents answers yes exactly when some parent declares or inherits the function |
| Registry.UnknownType | build.gradle.kts:659 | asking about a type nobody declared fails |
| Registry.NoParentsNoOverride | build.gradle.kts:675-682 | a type without parents overrides nothing |
| Fqn.Name | buildSrc/src/main/kotlin/com/github/turansky/yfiles/FileGenerator.kt:13 | the simple name has no dot and ends the qualified name |
| Fqn.PackageAndName | buildSrc/src/main/kotlin/com/github/turansky/yfiles/FileGenerator.kt:9-16 | a dotted name is its package, a dot and its simple name |
| Fqn.NoPackage | build.gradle.kts:746-752 | an undotted name is its own simple name, with empty package and path |
| Fqn.PathIsPackageWithSlashes | buildSrc/src/main/kotlin/com/github/turansky/yfiles/FileGenerator.kt:14-15 | the path is the package name with its dots replaced by slashes |
| Order.LessIrreflexive | build.gradle.kts:770 | no name sorts before itself |
| Order.LessTotal | build.gradle.kts:770 | of two different names one sorts first |
| Order.LessTransitive | build.gradle.kts:770 | the name order is transitive |
| Order.InsertPermutes | build.gradle.kts:770 | inserting adds exactly the one declaration |
| Order.SortByName | build.gradle.kts:770 | sorting permutes the declarations |
| Order.InsertSorted | build.gradle.kts:770 | inserting into a sorted list keeps it sorted |
| Order.SortSorted | build.gradle.kts:770 | the sorted list is ordered by name |
| Order.InsertNamed | build.gradle.kts:770 | among declarations of one name, an inserted one goes first |
| Order.SortStable | build.gradle.kts:770 | the sort is stable: declarations of one name keep their order |
| Files.ClassNames | build.gradle.kts:33-34 | the names of the declared classes |
| Files.Synthesize | build.gradle.kts:36-45 | one new class per constructor type that has none yet, each made from a constructor of that type, with no two for one type |
| Files.WithSyntheticClasses | build.gradle.kts:47 | the made-up classes are appended after the declarations |
| Files.EveryConstructorHasClass | build.gradle.kts:33-47 | afterwards every constructor's type has a class, and a made-up class is the only class of its type |
| Files.Owners | build.gradle.kts:691-718 | the file owners are exactly the class, interface and enum declarations, classes first |
| Files.FirstOwner | build.gradle.kts:701 | `first { it.className == className }` among the first owners, or -1 |
| Files.Place | build.gradle.kts:720-725 | placing succeeds exactly when every declaration has an owner file |
| Files.PlaceRouted | build.gradle.kts:720-725 | each file receives, in order, exactly the declarations routed to it |
| Files.PlaceAll | build.gradle.kts:699-725 | constructors go to class files only, other members to any owner file; the file of owner i holds its constructors, then its members |
| Files.Group | build.gradle.kts:691-726 | grouping succeeds exactly when every constructor and member has a file; there is one file per owner, holding that owner's items |
| Files.Consts | build.gradle.kts:768-770 | the constants of a file are a name-sorted permutation of its const items |
| Files.Functions | build.gradle.kts:772-775 | the functions of a file are a name-sorted permutation of its non-constructor function items |
| Files.ConstsMembers | build.gradle.kts:768-770 | the constant list holds exactly the file's constants |
| Files.FunctionsMembers | build.gradle.kts:772-775 | the function list holds exactly the file's plain functions |
| Files.ConstPartition | build.gradle.kts:777-778 | the static and member constants split the constants, each part still sorted |
| Files.FunctionPartition | build.gradle.kts:780-781 | the static and member functions split the functions, each part still sorted |
| Files.DedupByKey | build.gradle.kts:599-608 | a set of functions keeps one function per equality key and loses no key (which one, and in which order, by Files.DedupByKeyStep and Files.DedupByKeyFirsts) |
| Files.DedupByKeyStep | build.gradle.kts:599-608 | adding a function to the set appends it exactly when no kept function has its key |
| Files.DedupByKeyFirsts | build.gradle.kts:599-608 | every kept function is the first function of its key in the input |
| Files.DedupByKeySorted | build.gradle.kts:599-608 | de-duplicating a name-sorted list keeps it sorted by name |
| Files.OrderedParts | build.gradle.kts:783-789 | the sorted constants followed by the de-duplicated sorted functions have all constants first, each group in name order |
| Files.StaticDeclarations | build.gradle.kts:783-789 | the companion holds every static constant and one static function for each signature, with all constants before all functions and each group in name order; each kept function is the first of its signature among the name-sorted static functions |
| Files.MemberDeclarations | build.gradle.kts:847-851 | the body holds every member constant and one member function for each signature, with all constants before all functions and each group in name order; each kept function is the first of its signature among the name-sorted member functions |
| Json.Put | buildSrc/src/main/kotlin/com/github/turansky/yfiles/JsonReader.kt:56 | `put` makes the key hold the value and leaves every other key alone |
| Json.SetAbsent | buildSrc/src/main/kotlin/com/github/turansky/yfiles/JsonReader.kt:56 | `put` of a new key adds it at the end |
| Json.GetString | buildSrc/src/main/kotlin/com/github/turansky/yfiles/correction/ComparableHacks.kt:24 | `getString` succeeds exactly when the key holds a string |
| Json.GetArray | buildSrc/src/main/kotlin/com/github/turansky/yfiles/correction/ComparableHacks.kt:26 | `getJSONArray` succeeds exactly when the key holds an array |
| Json.GetObject | buildSrc/src/main/kotlin/com/github/turansky/yfiles/JsonReader.kt:51 | `getJSONObject` succeeds exactly when the key holds an object |
| Json.Objects | buildSrc/src/main/kotlin/com/github/turansky/yfiles/correction/YJson.kt:135-138 | `jsequence` succeeds exactly when the key holds an array of objects |
| Json.OptObjects | buildSrc/src/main/kotlin/com/github/turansky/yfiles/correction/YJson.kt:140-155 | an absent key gives no objects; a present one reads as `jsequence` |
| Json.IndexOfString | buildSrc/src/main/kotlin/com/github/turansky/yfiles/correction/YJson.kt:77 | `indexOf` gives the first position of the string, or -1 when it is absent |
| Json.RemoveAt | buildSrc/src/main/kotlin/com/github/turansky/yfiles/correction/YJson.kt:84 | `remove(i)` drops exactly the element at i |
| Json.UpdateObjects | buildSrc/src/main/kotlin/com/github/turansky/yfiles/correction/ElementIdHacks.kt:24-27 | editing the objects under a key in place: an absent key changes nothing, other keys are kept, and the array becomes the edited objects |
| Json.UpdateFixed | buildSrc/src/main/kotlin/com/github/turansky/yfiles/correction/ElementIdHacks.kt:24-27 | editing objects that the edit leaves alone changes nothing |
| Json.UpdateMakesFixed | buildSrc/src/main/kotlin/com/github/turansky/yfiles/correction/ElementIdHacks.kt:24-27 | after an idempotent edit, every object under the key is one the edit leaves alone |
| Json.UpdateIdempotent | buildSrc/src/main/kotlin/com/github/turansky/yfiles/correction/ElementIdHacks.kt:24-27 | editing twice with an idempotent edit equals editing once |
| Json.FirstNamed | buildSrc/src/main/kotlin/com/github/turansky/yfiles/correction/YJson.kt:47-53 | the first object with that name; every object before it has another name; among named objects, it is found exactly when one has the name |
| Json.FirstNamedSameNames | buildSrc/src/main/kotlin/com/github/turansky/yfiles/correction/YJson.kt:47-53 | the search for the first named object reads only the names: sequences named alike give the same answer |
| Json.FlatMapAppend | buildSrc/src/main/kotlin/com/github/turansky/yfiles/JsonReader.kt:43-44 | `flatMap` over a concatenation succeeds exactly when it does over both parts, and concatenates their results |
| YJson.ChangeModifier | buildSrc/src/main/kotlin/com/github/turansky/yfiles/correction/YJson.kt:75-86 | succeeds exactly when the modifier is absent iff it is to be set; setting appends it, clearing removes its first occurrence; no other key changes |
| YJson.ChangeNullability | buildSrc/src/main/kotlin/com/github/turansky/yfiles/correction/YJson.kt:69-70 | succeeds exactly when the object has modifiers and is now nullable iff it is to be made non-nullable; only the modifiers change |
| YJson.ChangeOptionality | buildSrc/src/main/kotlin/com/github/turansky/yfiles/correction/YJson.kt:72-73 | succeeds exactly when the object has modifiers and is now optional iff it is to be made non-optional; only the modifiers change |
| YJson.ChangeModifierResult | buildSrc/src/main/kotlin/com/github/turansky/yfiles/correction/YJson.kt:75-86 | afterwards the modifier is present exactly when it was set, and every other modifier is as before |
| YJson.ChangeModifierTwiceFails | buildSrc/src/main/kotlin/com/github/turansky/yfiles/correction/YJson.kt:79 | asking for the same change twice fails the second time |
| YJson.TypeParameter | buildSrc/src/main/kotlin/com/github/turansky/yfiles/correction/YJson.kt:125-133 | a type parameter has its name, and bounds `[bound]` exactly when a bound is given |
| YJson.SetSingleTypeParameter | buildSrc/src/main/kotlin/com/github/turansky/yfiles/correction/YJson.kt:88-98 | exactly one type parameter afterwards; no other key changes |
| YJson.AddFirstTypeParameter | buildSrc/src/main/kotlin/com/github/turansky/yfiles/correction/YJson.kt:100-110 | the new type parameter comes first, followed by the old list unchanged |
| YJson.SetTypeParameters | buildSrc/src/main/kotlin/com/github/turansky/yfiles/correction/YJson.kt:112-123 | exactly the two named type parameters, without bounds |
| YJson.AddGeneric | buildSrc/src/main/kotlin/com/github/turansky/yfiles/correction/YJson.kt:181-184 | `type` becomes `type<g>`; it fails when there is no string type |
| YJson.AddExtendsGeneric | buildSrc/src/main/kotlin/com/github/turansky/yfiles/correction/YJson.kt:186-189 | `extends` becomes `extends<g>` |
| YJson.AddGenericRoundTrip | buildSrc/src/main/kotlin/com/github/turansky/yfiles/correction/YJson.kt:181-184 | the old type is what precedes the last `<` of the new one |
| YJson.FlatOptObjects | buildSrc/src/main/kotlin/com/github/turansky/yfiles/correction/YJson.kt:157-159 | succeeds exactly when every element's optional array is an array of objects; objects without the key contribute nothing (concatenation order by YJson.FlatOptObjectsAppend) |
| YJson.FlatOptObjectsAppend | buildSrc/src/main/kotlin/com/github/turansky/yfiles/correction/YJson.kt:157-159 | flattening a concatenation concatenates the flattened parts, so element order is kept |
| YJson.FlatOptObjectsOne | buildSrc/src/main/kotlin/com/github/turansky/yfiles/correction/YJson.kt:157-159 | flattening one element gives its optional array |
| YJson.AllMethodParameters | buildSrc/src/main/kotlin/com/github/turansky/yfiles/correction/YJson.kt:14-16 | the parameters of the instance methods followed by those of the static methods; a type without methods has none |
| YJson.MatchingParameters | buildSrc/src/main/kotlin/com/github/turansky/yfiles/correction/YJson.kt:36-38 | succeeds exactly when the method's parameters are named objects; the result is exactly its parameters with that name that pass the filter, in order |
| YJson.NamedObjects | buildSrc/src/main/kotlin/com/github/turansky/yfiles/correction/YJson.kt:34 | every object is asked its name, so a nameless one fails; the result is exactly the objects with that name |
| YJson.NamedObjectsAppend | buildSrc/src/main/kotlin/com/github/turansky/yfiles/correction/YJson.kt:34 | selecting by name distributes over concatenation, so order is kept |
| YJson.FilterJsonAppend | buildSrc/src/main/kotlin/com/github/turansky/yfiles/correction/YJson.kt:38 | `filter` distributes over concatenation, so order is kept |
| YJson.ParametersOf | buildSrc/src/main/kotlin/com/github/turansky/yfiles/correction/YJson.kt:33-39 | succeeds exactly when every method's lookup does; every parameter found has the name, passes the filter and belongs to one of the methods, and every such parameter is found (order by YJson.ParametersOfAppend) |
| YJson.ParametersOfAppend | buildSrc/src/main/kotlin/com/github/turansky/yfiles/correction/YJson.kt:35-39 | the parameters of a concatenation of methods are those of the first part followed by those of the second |
| YJson.MethodParameters | buildSrc/src/main/kotlin/com/github/turansky/yfiles/correction/YJson.kt:28-45 | finding none fails; the result is the matching parameters of the methods of that name, in order, and holds every match |
| YJson.CollectsEveryMatch | buildSrc/src/main/kotlin/com/github/turansky/yfiles/correction/YJson.kt:33-39 | the collected list holds every parameter with the name that passes the filter, of every method with the method name |
| YJson.FirstNameIn | buildSrc/src/main/kotlin/com/github/turansky/yfiles/correction/YJson.kt:161-166 | the first object whose name is in the set; every earlier one has another name |
| YJson.TypeParameterOf | buildSrc/src/main/kotlin/com/github/turansky/yfiles/correction/YJson.kt:161-166 | succeeds exactly when some parameter is named `type`, `tType` or `itemType` with only named ones before it; the result is the first such parameter |
| YJson.ParameterNamed | buildSrc/src/main/kotlin/com/github/turansky/yfiles/correction/YJson.kt:168-171 | succeeds exactly when a parameter has the name with only named ones before it; the result is the first such parameter |
| YJson.ParameterAt | buildSrc/src/main/kotlin/com/github/turansky/yfiles/correction/YJson.kt:173-179 | the parameter at a position is found exactly when the position is in range and holds an object, and it is that object |
| YJson.MemberNamed | buildSrc/src/main/kotlin/com/github/turansky/yfiles/correction/YJson.kt:47-53 | the member found is the first member with the name; among named members, it is found exactly when one has the name |
| YJson.AddProperty | buildSrc/src/main/kotlin/com/github/turansky/yfiles/correction/YJson.kt:55-67 | a public final read-only property is appended; the old properties stay in front |
| JsonReader.JsonStart | buildSrc/src/main/kotlin/com/github/turansky/yfiles/JsonReader.kt:11 | the text is cut at its first `{`, and fails without one |
| JsonReader.ReplaceStructure | buildSrc/src/main/kotlin/com/github/turansky/yfiles/JsonReader.kt:27-40 | replacing bracket-free text by bracket-free text keeps every bracket count |
| JsonReader.FixInsetsDeclaration | buildSrc/src/main/kotlin/com/github/turansky/yfiles/JsonReader.kt:38-40 | the `Insets` rename keeps the JSON structure |
| JsonReader.ReadJsonText | buildSrc/src/main/kotlin/com/github/turansky/yfiles/JsonReader.kt:9-13 | fails exactly when there is no `{`; the text read has the structure of the original from its first `{` on (text without `Insets` is passed through, by JsonReader.ReadJsonTextAbsent) |
| JsonReader.ReadJsonTextAbsent | buildSrc/src/main/kotlin/com/github/turansky/yfiles/JsonReader.kt:9-13 | text without the `Insets` patterns reads as itself from its first `{` on |
| JsonReader.FixInsetsDeclarationAbsent | buildSrc/src/main/kotlin/com/github/turansky/yfiles/JsonReader.kt:38-40 | text without the `Insets` patterns is unchanged |
| JsonReader.FixSystemPackage | buildSrc/src/main/kotlin/com/github/turansky/yfiles/JsonReader.kt:27-29 | the `system` rename keeps the JSON structure |
| JsonReader.FixSystemPackageAbsent | buildSrc/src/main/kotlin/com/github/turansky/yfiles/JsonReader.kt:27-29 | text without either prefix is unchanged |
| JsonReader.FixClassDeclaration | buildSrc/src/main/kotlin/com/github/turansky/yfiles/JsonReader.kt:31-36 | the `Class` renames keep the JSON structure |
| JsonReader.FixClassDeclarationAbsent | buildSrc/src/main/kotlin/com/github/turansky/yfiles/JsonReader.kt:31-36 | text without any of the five `Class` patterns is unchanged |
| JsonReader.FixApiText | buildSrc/src/main/kotlin/com/github/turansky/yfiles/JsonReader.kt:18-20 | the text rewrites between the two parses keep the JSON structure (text with none of the patterns is unchanged, by JsonReader.FixApiTextAbsent) |
| JsonReader.FixApiTextAbsent | buildSrc/src/main/kotlin/com/github/turansky/yfiles/JsonReader.kt:18-20 | text without any `system` or `Class` pattern is unchanged |
| JsonReader.FlatObjects | buildSrc/src/main/kotlin/com/github/turansky/yfiles/JsonReader.kt:43 | succeeds exactly when every element holds an object array under the key; the flattened objects are exactly those arrays' elements (in order, by JsonReader.FlatObjectsAppend) |
| JsonReader.FlatObjectsAppend | buildSrc/src/main/kotlin/com/github/turansky/yfiles/JsonReader.kt:43 | flattening a concatenation concatenates the flattened parts, so element order is kept |
| JsonReader.FlatObjectsOne | buildSrc/src/main/kotlin/com/github/turansky/yfiles/JsonReader.kt:43 | flattening one element gives its object array |
| JsonReader.NamespaceTypes | buildSrc/src/main/kotlin/com/github/turansky/yfiles/JsonReader.kt:44 | one namespace gives its nested namespaces' types, then its own types |
| JsonReader.AllNamespaceTypes | buildSrc/src/main/kotlin/com/github/turansky/yfiles/JsonReader.kt:43-45 | succeeds exactly when every namespace's types can be read; the types are exactly those of some top-level namespace (in order, by JsonReader.AllNamespaceTypesAppend) |
| JsonReader.AllNamespaceTypesAppend | buildSrc/src/main/kotlin/com/github/turansky/yfiles/JsonReader.kt:43-45 | the types of a concatenation of namespaces are those of the first part followed by those of the second |
| JsonReader.AllNamespaceTypesOne | buildSrc/src/main/kotlin/com/github/turansky/yfiles/JsonReader.kt:44 | the types of one namespace are its nested namespaces' types followed by its own |
| JsonReader.RemoveNamespaces | buildSrc/src/main/kotlin/com/github/turansky/yfiles/JsonReader.kt:42-48 | `types` becomes the namespaces' types; no other key changes |
| JsonReader.RemoveNamespacesIdempotent | buildSrc/src/main/kotlin/com/github/turansky/yfiles/JsonReader.kt:42-48 | running it twice gives what running it once gives |
| JsonReader.SignatureEntries | buildSrc/src/main/kotlin/com/github/turansky/yfiles/JsonReader.kt:53-58 | one object per map entry, each carrying its key as `id`; a non-object entry fails |
| JsonReader.FixFunctionSignatures | buildSrc/src/main/kotlin/com/github/turansky/yfiles/JsonReader.kt:50-61 | a map of n entries becomes an array of n objects, the i-th carrying the i-th key as `id`; no other key changes |
| JsonReader.FixFunctionSignaturesRoundTrip | buildSrc/src/main/kotlin/com/github/turansky/yfiles/JsonReader.kt:50-61 | when no entry had an `id`, moving each `id` back into the key restores the original object |
| ElementIdHacks.RetypeId | buildSrc/src/main/kotlin/com/github/turansky/yfiles/correction/ElementIdHacks.kt:25-27 | an entry named `id` or `…Id` of string type becomes an `ElementId`; every other entry is unchanged |
| ElementIdHacks.RetypeReturn | buildSrc/src/main/kotlin/com/github/turansky/yfiles/correction/ElementIdHacks.kt:29-33 | a return is retyped only when the method's name ends in `Id` and it returns a string, and such a return is always retyped to `ElementId` |
| ElementIdHacks.RetypeParameters | buildSrc/src/main/kotlin/com/github/turansky/yfiles/correction/ElementIdHacks.kt:35-40 | every parameter of a method or constructor gets the id rule |
| ElementIdHacks.RetypeMethod | buildSrc/src/main/kotlin/com/github/turansky/yfiles/correction/ElementIdHacks.kt:29-40 | a method has its return, then its parameters retyped; nothing else changes |
| ElementIdHacks.RetypeType | buildSrc/src/main/kotlin/com/github/turansky/yfiles/correction/ElementIdHacks.kt:21-41 | only types whose id starts with `yfiles.graphml` change, and only in their properties, methods and constructors, each of which is the element-wise retyping of the original array |
| ElementIdHacks.RetypeParts | buildSrc/src/main/kotlin/com/github/turansky/yfiles/correction/ElementIdHacks.kt:23-40 | properties, methods and constructors each become the element-wise retyping of the original array, and no other key changes |
| ElementIdHacks.RetypeMembers | buildSrc/src/main/kotlin/com/github/turansky/yfiles/correction/ElementIdHacks.kt:29-40 | methods and constructors each become the element-wise retyping of the original array, and no other key changes |
| ElementIdHacks.ApplyElementIdHacks | buildSrc/src/main/kotlin/com/github/turansky/yfiles/correction/ElementIdHacks.kt:20-42 | succeeds exactly when every type can be retyped; the types are the element-wise retyping; nothing outside `types` changes |
| ElementIdHacks.RetypeIdIdempotent | buildSrc/src/main/kotlin/com/github/turansky/yfiles/correction/ElementIdHacks.kt:26 | retyping an entry twice equals retyping it once, because a retyped entry is no longer a `String` |
| ElementIdHacks.RetypeReturnFixed | buildSrc/src/main/kotlin/com/github/turansky/yfiles/correction/ElementIdHacks.kt:32 | retyping a return twice equals retyping it once |
| ElementIdHacks.RetypeParametersIdempotent | buildSrc/src/main/kotlin/com/github/turansky/yfiles/correction/ElementIdHacks.kt:35-40 | retyping parameters twice equals retyping them once |
| ElementIdHacks.RetypeMethodIdempotent | buildSrc/src/main/kotlin/com/github/turansky/yfiles/correction/ElementIdHacks.kt:29-40 | retyping a method twice equals retyping it once |
| ElementIdHacks.RetypeTypeFixed | buildSrc/src/main/kotlin/com/github/turansky/yfiles/correction/ElementIdHacks.kt:21-41 | retyping a type twice equals retyping it once |
| ElementIdHacks.ApplyElementIdHacksIdempotent | buildSrc/src/main/kotlin/com/github/turansky/yfiles/correction/ElementIdHacks.kt:20-42 | applying the pass twice equals applying it once |
| ElementIdHacks.IdPropertyRetyped | buildSrc/src/main/kotlin/com/github/turansky/yfiles/correction/ElementIdHacks.kt:24-27 | in a `yfiles.graphml` type, a property named like an id and typed `String` is typed `ElementId` afterwards |
| ElementIdHacks.IdReturnRetyped | buildSrc/src/main/kotlin/com/github/turansky/yfiles/correction/ElementIdHacks.kt:29-33 | in a `yfiles.graphml` type, a method named `…Id` returning `String` returns `ElementId` afterwards |
| ElementIdHacks.IdParameterRetyped | buildSrc/src/main/kotlin/com/github/turansky/yfiles/correction/ElementIdHacks.kt:37-40 | a parameter named like an id and typed `String` is typed `ElementId` afterwards |
| ElementIdHacks.IdMethodParameterRetyped | buildSrc/src/main/kotlin/com/github/turansky/yfiles/correction/ElementIdHacks.kt:35-40 | in a `yfiles.graphml` type, such a parameter of a method is typed `ElementId` afterwards |
| ElementIdHacks.IdConstructorParameterRetyped | buildSrc/src/main/kotlin/com/github/turansky/yfiles/correction/ElementIdHacks.kt:35-40 | in a `yfiles.graphml` type, such a parameter of a constructor is typed `ElementId` afterwards |
| ElementIdHacks.ApplyElementIdHacksTypes | buildSrc/src/main/kotlin/com/github/turansky/yfiles/correction/ElementIdHacks.kt:20-23 | the i-th type of the result is the retyping of the i-th type of the input |
| ComparableHacks.SingleNamed | buildSrc/src/main/kotlin/com/github/turansky/yfiles/correction/ComparableHacks.kt:37-39 | `singleOrNull`: a position found is the only method with the name; nothing found means none or several have it; when every method has a name it succeeds |
| ComparableHacks.Renamed | buildSrc/src/main/kotlin/com/github/turansky/yfiles/correction/ComparableHacks.kt:42-43 | the parameter is named `other` and typed, with its modifiers kept |
| ComparableHacks.OtherParameter | buildSrc/src/main/kotlin/com/github/turansky/yfiles/correction/ComparableHacks.kt:41-45 | configuring the parameter fails unless it was nullable |
| ComparableHacks.ConfigureParameter | buildSrc/src/main/kotlin/com/github/turansky/yfiles/correction/ComparableHacks.kt:40-46 | the first parameter, which was nullable, becomes `other` of the given type; the other parameters and the rest of the method are kept |
| ComparableHacks.ConfigureParameterNonNull | buildSrc/src/main/kotlin/com/github/turansky/yfiles/correction/ComparableHacks.kt:44 | afterwards the parameter is not nullable, and its other modifiers are as before |
| ComparableHacks.CompareToConfiguredNonNull | buildSrc/src/main/kotlin/com/github/turansky/yfiles/correction/ComparableHacks.kt:41-45 | wherever a `compareTo` is configured (and so in the result of the whole pass), its new first parameter `other` is not nullable when the old one was marked nullable once, and its other modifiers are as before |
| ComparableHacks.ConfigureMethodAt | buildSrc/src/main/kotlin/com/github/turansky/yfiles/correction/ComparableHacks.kt:40-46 | only the chosen method changes, and it is configured |
| ComparableHacks.ConfigureCompareTo | buildSrc/src/main/kotlin/com/github/turansky/yfiles/correction/ComparableHacks.kt:36-47 | nothing changes unless exactly one method is named `compareTo`, and then only that method |
| ComparableHacks.TypeIndex | buildSrc/src/main/kotlin/com/github/turansky/yfiles/correction/ComparableHacks.kt:7 | the index found is that of the first type with the name, with only named types before it |
| ComparableHacks.ConfigureIComparable | buildSrc/src/main/kotlin/com/github/turansky/yfiles/correction/ComparableHacks.kt:7-11 | only `IComparable` changes among the types; it gets the single type parameter `T` and becomes the configured `IComparable` type, whose `compareTo` takes `other: T` (`ComparableHacks.IComparableCompareTo`) |
| ComparableHacks.ConfigureIComparableType | buildSrc/src/main/kotlin/com/github/turansky/yfiles/correction/ComparableHacks.kt:8-11 | `IComparable` has the single type parameter `T`; only its type parameters and methods change |
| ComparableHacks.IComparableCompareTo | buildSrc/src/main/kotlin/com/github/turansky/yfiles/correction/ComparableHacks.kt:7-11 | when `IComparable` has exactly one `compareTo`, its first parameter becomes `other: T` and no other method changes; otherwise its methods are unchanged |
| ComparableHacks.ConfigureComparableType | buildSrc/src/main/kotlin/com/github/turansky/yfiles/correction/ComparableHacks.kt:23-32 | the `IComparable` entry of `implements` is replaced in place by `IComparable<id>`; only `implements` and the methods change |
| ComparableHacks.ComparableTypeCompareTo | buildSrc/src/main/kotlin/com/github/turansky/yfiles/correction/ComparableHacks.kt:32 | when the value type has exactly one `compareTo`, its first parameter becomes `other` typed with the type's own id and no other method changes; otherwise its methods are unchanged |
| ComparableHacks.ConfigureComparableTypeOnce | buildSrc/src/main/kotlin/com/github/turansky/yfiles/correction/ComparableHacks.kt:26-30 | a type that listed `IComparable` once cannot be patched a second time, since its plain `IComparable` is gone |
| ComparableHacks.ConfigureNamedType | buildSrc/src/main/kotlin/com/github/turansky/yfiles/correction/ComparableHacks.kt:23-33 | only the named value type changes among the types, and it is patched |
| ComparableHacks.ConfigureNamedTypes | buildSrc/src/main/kotlin/com/github/turansky/yfiles/correction/ComparableHacks.kt:13-33 | only `types` changes, the number of types is kept and every type whose name is not in the list is unchanged (each listed type's patch is ComparableHacks.ConfigureNamedTypesEach) |
| ComparableHacks.ApplyComparableHacks | buildSrc/src/main/kotlin/com/github/turansky/yfiles/correction/ComparableHacks.kt:6-34 | only `types` changes, and only `IComparable` and the listed value types; the result is the value-type pass applied after the `IComparable` pass |
| ComparableHacks.TypeIndexSameNames | buildSrc/src/main/kotlin/com/github/turansky/yfiles/correction/ComparableHacks.kt:13-23 | type lists named alike find a name at the same index |
| ComparableHacks.ConfigureNamedTypesEach | buildSrc/src/main/kotlin/com/github/turansky/yfiles/correction/ComparableHacks.kt:13-33 | for distinct names, the type each name finds is replaced by its `IComparable<id>` patch |
| ComparableHacks.ConfiguredFirst | buildSrc/src/main/kotlin/com/github/turansky/yfiles/correction/ComparableHacks.kt:13-33 | the first listed type, when not listed again, ends up patched where the original root has it |
| ComparableHacks.ConfiguredRest | buildSrc/src/main/kotlin/com/github/turansky/yfiles/correction/ComparableHacks.kt:13-33 | every later listed type, for distinct names, ends up patched where the original root has it |
| ComparableHacks.ConfiguredRestTail | buildSrc/src/main/kotlin/com/github/turansky/yfiles/correction/ComparableHacks.kt:13-33 | a type the rest of the loop patched under a later name is patched at the position the original root gives it |
| ComparableHacks.ConfiguredLater | buildSrc/src/main/kotlin/com/github/turansky/yfiles/correction/ComparableHacks.kt:13-33 | a patch made after the first step, under another name, sits where the original root has that name, since the first step kept every name |
| ComparableHacks.ApplyComparableHacksIComparable | buildSrc/src/main/kotlin/com/github/turansky/yfiles/correction/ComparableHacks.kt:7-11 | after the whole pass `IComparable`, in its original position, has the single type parameter `T`, and its single `compareTo` has its first parameter renamed `other`, typed `T` and made non-null by `changeNullability(false)` (see `ComparableHacks.CompareToConfiguredNonNull`), with no other method changed |
| ComparableHacks.ApplyComparableHacksValueTypes | buildSrc/src/main/kotlin/com/github/turansky/yfiles/correction/ComparableHacks.kt:13-33 | each listed value type is replaced by its `IComparable<id>` patch |

## Left out

- File and build I/O is not modelled: the build task wrapper, `readLines`, creating and deleting directories, `writeText`, and `File.readText`. The model starts from the lines or text already read.
- The Kotlin text that is rendered (`toString`, `content()`, `companionContent()`, headers) is left out. Only `parametersString`, which keys function equality, is modelled.
- The `org.json` library is left out. JSON is a datatype, and the `toString`/re-parse steps of `readApiJson` are taken as the identity. An object's key order is the order of its field list, because `keySet()` order is not specified.
- The hack tables (`Hacks.parseParamLine` entries, `getReturnType` entries, `getFunctionGenerics`, `ignoreExtendedType`, `getImplementedTypes`) are API-version data and are given as lookup functions. The rules that decide when a table is consulted are modelled. The `println` calls before the error are I/O.
- `Hacks.getGenerics` and `Hacks.filterConstructorAdapters` only feed the rendered text, so they are left out.
- `generateElementIdUtils` stores a code template and is left out.
- The Kotlin compiler plugins, the IDE plugin, the Gradle plugin and the other build scripts are not part of this model.
- ElementIdHacks.RetypeType: the three passes of the source (properties, method returns, then method and constructor parameters) are fused into one pass per type. Method returns and method parameters are done together.
- Lazy `Sequence` pipelines are modelled eagerly, so a failure anywhere in a sequence fails the whole step. The source, by contrast, only fails on the elements it actually reaches.
- TypeParser.FirstGenericType: the loop runs on fuel. On strings of 100000 characters or more, fuel can run out, where the source's sentinel arithmetic goes differently. Then the model returns an error.
- Registry.Overridden: the ancestor walk requires a rank that decreases from each type to its parents, over the whole registry, so the model says nothing about an inheritance graph with a cycle, even one the queried type cannot reach. The source has no cycle guard: its `any` short-circuits, so on a cyclic graph it still answers yes when it reaches a declaring ancestor before going round the cycle, and otherwise it fails with a stack overflow.
- Registry.FunctionOverridden: same acyclicity requirement as Registry.Overridden.
- Order.Less: characters are compared as Dafny characters. Kotlin compares UTF-16 code units, which orders characters outside the Basic Multilingual Plane differently.
- JsonReader.FixSystemPackage: the contract states that the bracket structure is kept and that text without the prefixes is unchanged. It does not state where each replacement lands.
- JsonReader.FixClassDeclaration: states that the bracket structure is kept and (JsonReader.FixClassDeclarationAbsent) that text without the patterns is unchanged. It does not state where each replacement lands.
- JsonReader.FixInsetsDeclaration: states that the bracket structure is kept and (JsonReader.FixInsetsDeclarationAbsent) that text without the patterns is unchanged. It does not state where each replacement lands.
- JsonReader.ReadJsonText: states the failure condition, that the bracket structure from the first `{` on is kept, and (JsonReader.ReadJsonTextAbsent) that text without the `Insets` patterns is passed through. It does not state where each replacement lands.
- JsonReader.FixApiText: states that the bracket structure is kept and (JsonReader.FixApiTextAbsent) that text without the patterns is unchanged. It does not state where each replacement lands.
- TypeParser.ParseType: its own contract only states that a type without `.<` parses. Its values are stated by TypeParser.StandardTypeMapped, TypeParser.PlainNameKept, TypeParser.UnionFirstAlternative, TypeParser.GenericTypeOf and TypeParser.NestedGenericsSingleArgument.
- TypeParser.ParseAll: its own contract states only the length, because a function in its recursion cannot name the predicate built on it. The element-wise values are stated by TypeParser.ParseAllPieces.
- TypeParser.ParseSplit: same as TypeParser.ParseAll. The element-wise values are stated by TypeParser.ParseSplitPieces.
- Ir.TagLines: its own contract states membership. Order and multiplicity are stated by Ir.TagLinesAppend and Ir.TagLinesOne.
- Files.DedupByKey: its own contract states one function per key and no lost key. Which function survives and the order are stated by Files.DedupByKeyStep and Files.DedupByKeyFirsts.
- Declarations.GenericString: its own contract states only when the string is empty. Its value is stated by Declarations.GenericStringOf for names without commas or `@`.
- Declarations.ConstBodyOf: the constant's type is stated by Declarations.ConstBodyType rather than on the function.
- YJson.FlatOptObjects: the order of the result is stated by YJson.FlatOptObjectsAppend and YJson.FlatOptObjectsOne rather than on the function.
- YJson.ParametersOf: the order of the result is stated by YJson.ParametersOfAppend rather than on the function.
- JsonReader.FlatObjects: the order of the result is stated by JsonReader.FlatObjectsAppend and JsonReader.FlatObjectsOne rather than on the function.
- JsonReader.AllNamespaceTypes: the order of the result is stated by JsonReader.AllNamespaceTypesAppend and JsonReader.AllNamespaceTypesOne rather than on the function.
- ComparableHacks.ConfigureNamedTypes: its own contract states the frame. That each listed type is patched is stated by ComparableHacks.ConfigureNamedTypesEach, for distinct names.
- Reader.ReadAll: states how many declarations at most are read. What each one is, is stated block by block by Reader.ReadDeclarationRoundTrip.
- Error message texts are carried in `Err` but are not claimed to match the source's.
