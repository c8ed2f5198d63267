# pg_flatbuffers: JSON conversion, path queries and the schema cache

This project models the core of the `pg_flatbuffers` Postgres extension and proves what its parts promise each other:

- **JSON to FlatBuffer to JSON.** `from_json.rs` builds a buffer from a document under a reflection schema; `to_json.rs` reads it back.
- **Path queries.** `query/parser.rs` turns `[schema:]table:path` into steps; `query/executor/*` walks a buffer along them.
- **The schema cache.** `schema_cache.rs` keeps verified schemas in an LRU that must agree with a catalog other backends write.

## What is proved

The main results, each for every schema, document, buffer, query or run within its stated conditions:

1. *Whole-document round trip* (`Theorems.WholeDocumentRoundTrip`, `Theorems.AcceptedConvertsBack`): whatever builds reads back as its canonical form, a form defined on documents alone (`Canon`), exactly if the document has no fault, and otherwise fails with its first fault in reading order. A fault is a number too large for a `float`, a missing float field whose default is not finite, or a union left out that has no variant for NONE. The canonical form is a fixed point exactly if the document is kept: every default filled in is one that `from_json` takes, and the last row under each key has a key that its text gives back and that, if it is a string, is there (`Theorems.CanonIsIdempotent`). It is accepted again exactly if it fits the depth limit, those defaults are taken and those texts give the keys back (`Theorems.ReencodesExactly`), and comes back as the same document exactly if it fits and the document is kept (`Theorems.ComesBackExactly`).
2. *Struct bytes in place* (`StructJson.StructRoundTrip`, `StructLayout.BuildStructBytes`, `BuildFacts.StructsExactly`): at any location, for any layout with disjoint fields, written bytes read back; no write disturbs another field or leaves the window, padding is zero, and which objects are structs is proved.
3. *Two readers agree* (`Theorems.QueryIsSelection`, `Theorems.QueryOfDocument`): the `to_json` document decides whether a query is answered or refused, and the leaves of an answered query are the text of what a schema-free path selects in the document. A query that resolves in the schema is always answered (`QueryVerdicts.ResolvedIsAnswered`).
4. *Lookup* (`LookupModes.PathsAgree`, `Literals.UnsignedAnswersExact`, `SugarLookup.SugarThenLookup`, `Literals.ReachedExactly`): strict and lenient mode agree on every path whose keyed vectors are sorted; with `ulong` keys above the signed range they do so exactly for certain sizes; in a vector built from a JSON object a literal finds the row of the key that it denotes, and which keys a literal can denote is proved.
5. *Fan-out, cardinality, defaults* (`ExecutorFacts`, `FillDefaults`): `[*]` is `[0]`, `[1]`, ... in order with the same first error; a path without fan-out has one leaf; filling defaults changes absent scalar leaves only.
6. *Depth, leniency, unions* (`Theorems.LimitIsExact`, `Theorems.LenientDocument`, `Unions`): the nesting limit is exact and monotone; allowing unknown keys is erasing them first; tags and values come together and every reader resolves the same variant.
7. *Parser* (`ParserFacts.ParseExactly`): a text parses to a query if and only if it spells it within the bounds; every error points into the text. Names, ids, indices and keys are characterised character by character, and the first wrong character is reported where it stands (`NameTexts`).
8. *Cache* (`SchemaCache.LookupsReadTheCatalog`, `SchemaCache.EntriesByRecency`): over all runs, a lookup that drains its invalidations answers with a schema exactly if the catalog holds it now and it verifies; every cached schema verifies; what is evicted is what was not looked up for the longest time.
9. *Values* (`FloatValues.NarrowIsNearest`, `Blobs.Base64Exactly`, `Scalars.EnumsAreExact`): casts to floats find the nearest one, ties to even; a text is base64 of bytes exactly if it is the one `to_json` shows; which JSON values each scalar type takes, and how it shows them, is proved.
10. *Errors* (`BuildErrors`, `QueryErrors`, `ReadFaults`): which error is reported, for what, and which comes first of several.

Functions such as `FromJson.EncTable`, `ToJson.ReadTable`, `Executor.WalkTable` and `QueryParser.Parse` follow the source branch by branch. The loops, in-place writes, cursor and caches of the source are methods and classes (`StructLayout`, `StructJson`, `Builder`, `JsonBuilder`, `JsonReader`, `ExecutorLoops`, `QueryParser.Parser`, `SchemaCache.Cache`) proved equal to those functions, and the lemmas are about the functions.

## The model

- Strings are byte strings, one character per UTF-8 byte, so positions are byte offsets and `<` is the order of `str::cmp`. JSON objects are maps iterated in ascending key order, as `serde_json`'s are.
- A schema is the reflection schema with its type indices resolved. Struct definitions are finite trees; tables are named by index, so they may refer to each other.
- A buffer is an append-only list of nodes. Struct bytes and struct vectors are modelled byte by byte; a table is a map from vtable slots to values. The executor runs on any such graph, shared or cyclic; the builder makes acyclic ones.
- Floats are their bit patterns, with `f32` narrowing and widening written out. A float leaf keeps its bits; its text is what Postgres prints for them.
- What the library's `get_any_field_string` returns for an absent key, and how it prints a float, is a parameter (`KeyText.KeyReader`): every result holds for every choice.

## Corners of the code, and where its comments differ

- `crates/pg_flatbuffers/src/query/executor/map_key.rs:190-196` says that only entries above `i64::MAX` are misordered. A `ulong` vector holding 1 and 2^63+5 loses key 1: `T:v[+1].k` answers NULL (`Literals.LargeKeyHidesSmallOne`). `Literals.UnsignedAnswersExact` gives the exact condition.
- `crates/pg_flatbuffers/src/schema_cache.rs:89-91` says that invalidations flush everything until the OID is known. They do not, and need not: the cache is empty until then (`SchemaCache.CacheIsBounded`).
- `crates/pg_flatbuffers/src/query/executor/walk.rs:108-110` and `crates/pg_flatbuffers/src/query/executor/leaf.rs:63-66` disagree on what an absent key field reads as; see `KeyText.KeyReader`.
- `required` does not cover a union given as NONE: the document mentions it, and the table builds without its value (`Required.RequiredUnion`).
- A `long` accepts JSON integers from 2^63 to 2^63+1024 and stores `i64::MAX` (`Scalars.IntegersAreExact`).
- Not every object key can be asked for. Digits between brackets are an index (`crates/pg_flatbuffers/src/query/parser.rs:362-369`), so `items[1]` is an element and key 1 is `items[+1]`; a string key such as `"42"`, `"*"`, `""` or one with `]` or `:` is out of reach (`Literals.ReachedExactly`).
- Not every accepted document converts back: `{}` does not if a float default is infinite (`ReadFaults.InfiniteDefault`) or a union has no NONE variant (`ReadFaults.NoNoneVariant`).
- `to_json` output is not always accepted again. It writes keyed vectors as objects, which cost one level more than arrays (`ReencodeCases.DeeperObject`), shows enum keys by name (`ReencodeCases.EnumKey`), shows keys of types that objects may not have (`ReencodeCases.BoolKey`), and shows a `ulong` enum's default that is negative as `i64`, by name or number, which `scalar_from_signed` refuses (`ReencodeCases.NegativeEnumDefault`). `Theorems.ReencodesExactly` says when it is. Accepted output can still change: a row without its string key gets one (`FixedPoints.InjectedStays`).
- A filled default outside its type's range prints differently in the two readers: `crates/pg_flatbuffers/src/query/executor/util.rs:61-79` prints the schema's `i64`, `to_json` the cast value. For a `ulong` default held as -1 a query answers "-1" and `to_json` shows 18446744073709551615. `SameReaders.DefaultShows` says for which defaults they agree.

## Model

| member | source | states |
|---|---|---|
| Theorems.WholeDocumentRoundTrip | crates/pg_flatbuffers/src/from_json.rs:176-204 | for every accepted document, `to_json` of the built buffer is the document's canonical form, or fails as the canonical form does |
| Theorems.AcceptedConvertsBack | crates/pg_flatbuffers/src/to_json.rs:81-230 | an accepted document converts back exactly if it has no faults, and otherwise the error is its first fault in reading order |
| ReadFaults.TableFaulted | crates/pg_flatbuffers/src/to_json.rs:100-230 | the same for the canonical form of a table at any depth, under any schema |
| ReadFaults.InfiniteDefault | crates/pg_flatbuffers/src/to_json.rs:895-909 | `{}` is accepted with an infinite default, has a float fault, and `to_json` of the buffer fails with it |
| ReadFaults.NoNoneVariant | crates/pg_flatbuffers/src/to_json.rs:743-769 | `{}` is accepted with a union that has no variant of value 0, has a reflection fault, and `to_json` of the buffer fails with it |
| ReadFaults.OverflowingNumber | crates/pg_flatbuffers/src/from_json.rs:1165-1173 | 2^128 is accepted for a `float`, has a float fault, and `to_json` of the buffer fails with it |
| RoundTrip.TableRoundTrip | crates/pg_flatbuffers/src/to_json.rs:100-230 | the same for a table at any depth of any document |
| RoundTrip.MemberAgrees | crates/pg_flatbuffers/src/to_json.rs:100-230 | reading one field of a built table adds to the object exactly the canonical member of the document |
| RoundTrip.VectorRoundTrip | crates/pg_flatbuffers/src/to_json.rs:349-500 | every built vector reads back canonical: scalars, strings, bytes, structs, tables and keyed rows |
| RoundTrip.StructsAgree | crates/pg_flatbuffers/src/to_json.rs:505-535 | element i of a struct vector is found at 4 + i times the stride behind the count word |
| RoundTrip.UnionAgrees | crates/pg_flatbuffers/src/to_json.rs:743-832 | a union's tag and value read back as the document's tag and canonical value; an absent union shows NONE |
| RoundTrip.KeyAgrees | crates/pg_flatbuffers/src/to_json.rs:435-490 | the key a reader finds in a built row is the key its document shows |
| Theorems.CanonIsIdempotent | crates/pg_flatbuffers/src/to_json.rs:100-230 | the canonical form of a canonical document is itself exactly if the document is kept: its filled defaults return, and so does the key of the last row under each text, which is not a missing string |
| FixedPoints.TableFixed | crates/pg_flatbuffers/src/to_json.rs:100-230 | the same for a table at any depth |
| FixedPoints.RowFixed | crates/pg_flatbuffers/src/from_json.rs:768-820 | a canonical row, taken back under its key, converts to itself exactly if the row is kept and its key returns and is there |
| Idempotence.ScalarFixed | crates/pg_flatbuffers/src/from_json.rs:1025-1246 | a stored scalar shown as JSON encodes back to the same scalar, enum names and narrowed floats included |
| Idempotence.StructFixed | crates/pg_flatbuffers/src/to_json.rs:235-292 | canonical struct documents are fixed points |
| FixedPoints.VectorFixed | crates/pg_flatbuffers/src/to_json.rs:349-500 | canonical vectors are fixed points, those of tables exactly if their rows are kept |
| FixedPoints.KeyedFixed | crates/pg_flatbuffers/src/from_json.rs:736-853 | feeding a canonical keyed object back in leaves every row and key as it was, exactly if the last row under each key is kept with its key |
| FixedPoints.UnionFixed | crates/pg_flatbuffers/src/from_json.rs:864-988 | with unique variant names a canonical union pair is a fixed point exactly if the table it holds, if any, is kept |
| Idempotence.DefaultDecides | crates/pg_flatbuffers/src/from_json.rs:1231-1243 | a default that `to_json` shows is accepted exactly if it is not a `ulong` enum's that is negative as `i64`, and then encodes to itself |
| Idempotence.Contributed | crates/pg_flatbuffers/src/to_json.rs:100-230 | a finished object holds under a field's keys what that field contributed, whatever the other fields added |
| CanonDepth.ObjectFormIsDeeper | crates/pg_flatbuffers/src/from_json.rs:836-843 | a row costs its table's levels plus one in an array and plus two in an object |
| Theorems.ReencodesExactly | crates/pg_flatbuffers/src/from_json.rs:176-204 | the `to_json` output of an accepted document is accepted again exactly if the document returns within the limit, and exactly if its cost fits the limit and all its keys and filled defaults return |
| Theorems.ComesBackExactly | crates/pg_flatbuffers/src/from_json.rs:176-204 | the output is accepted and converts to itself exactly if the document returns within the limit and is kept, and exactly if the output's cost fits the limit and the document is kept |
| ComesBack.KeptReturns | crates/pg_flatbuffers/src/from_json.rs:211-435 | a document that is kept returns, given two levels for each level of its nesting |
| ReencodeTables.TableReturns | crates/pg_flatbuffers/src/from_json.rs:211-435 | the same for a table at any depth, also with missing string keys put into its rows |
| ReencodeTables.KeyedReturns | crates/pg_flatbuffers/src/from_json.rs:736-853 | the object form of a keyed vector is accepted exactly if two levels are left and the last row under each key has a key that returns and returns itself |
| RowKeys.RowEntry | crates/pg_flatbuffers/src/from_json.rs:768-820 | a canonical row is taken back under its key exactly if the key returns; a missing string key is put in, nothing else changes, and the row is listed under the same key again |
| RowKeys.RowsListed | crates/pg_flatbuffers/src/to_json.rs:466-488 | the object of a keyed vector lists, under each text, the last row with it, and nothing else |
| ShownKeys.KeysExactly | crates/pg_flatbuffers/src/to_json.rs:100-230 | an object has a member for every scalar, every union's `_type`, and what else the document gives, and nothing more |
| RowKeys.NumberDecides | crates/pg_flatbuffers/src/from_json.rs:782-811 | an integer key's text gives back what the row shows exactly if no enum names the number and it is within `i64` or, if it is the default, the key reader's text is that number |
| ReencodeLeaves.StructReencodes | crates/pg_flatbuffers/src/from_json.rs:1418-1463 | the canonical form of an accepted struct is accepted again |
| ReencodeCases.UnsupportedKeyIsRefused | crates/pg_flatbuffers/src/from_json.rs:793-802 | the canonical form of a non-empty vector keyed by anything but a string or an integer is refused under any options |
| ReencodeCases.NamedKeyIsRefused | crates/pg_flatbuffers/src/from_json.rs:804-811 | so is that of a vector in which the last row under a key shows a number that the key's enum names |
| ReencodeCases.NegativeEnumDefault | crates/pg_flatbuffers/src/from_json.rs:1231-1243 | `{}` is accepted for a `ulong` enum whose default is -2^63 as `i64`, and the `{"x":"A"}` that `to_json` writes for it is refused under any options |
| ReencodeCases.BoolKey | crates/pg_flatbuffers/src/from_json.rs:793-802 | a document with a bool key is accepted, and what `to_json` writes for it is refused |
| ReencodeCases.EnumKey | crates/pg_flatbuffers/src/from_json.rs:804-811 | the same for an enum key |
| ReencodeCases.DeeperObject | crates/pg_flatbuffers/src/from_json.rs:836-843 | a document accepted at depth limit 2 comes back as one that needs 3 |
| CanonDepth.ReencodingCanFail | crates/pg_flatbuffers/src/from_json.rs:524-533 | for every canonical row, at exactly the limit the array of it builds and the object that `to_json` writes for that array does not |
| StructLayout.BuildStructBytes | crates/pg_flatbuffers/src/from_json.rs:1418-1463 | the zeroed buffer, written in place field by field, holds the struct's specified bytes, or the first error is returned |
| StructLayout.WriteStructField | crates/pg_flatbuffers/src/from_json.rs:1468-1512 | writes exactly the field's bytes at its offset and changes nothing outside that window |
| StructLayout.WriteArrayInStruct | crates/pg_flatbuffers/src/from_json.rs:1517-1589 | writes the elements one stride apart and changes nothing outside the array's window |
| StructJson.StructRoundTrip | crates/pg_flatbuffers/src/to_json.rs:235-343 | at any location that holds a struct's written bytes, reading gives the canonical document, for any nesting |
| StructJson.FillKeeps | crates/pg_flatbuffers/src/from_json.rs:1446-1462 | writes to other fields leave a disjoint window as it was |
| StructJson.FillWrites | crates/pg_flatbuffers/src/from_json.rs:1446-1462 | after all writes each field's window holds that field's bytes |
| StructJson.StructToJson | crates/pg_flatbuffers/src/to_json.rs:235-292 | the loop over fields in id order returns the specified object or the first error |
| StructJson.ArrayToJson | crates/pg_flatbuffers/src/to_json.rs:298-343 | the loop over array elements returns them in order or the first error |
| Scalars.TableAndStructAgree | crates/pg_flatbuffers/src/from_json.rs:1591-1758 | the struct writer accepts the values the table encoder accepts, fails alike, and stores the same number |
| Scalars.IntegersAreExact | crates/pg_flatbuffers/src/from_json.rs:1252-1338 | a JSON integer is accepted exactly when in range and stored unchanged, except the `long` band stored as `i64::MAX` |
| Scalars.IntegralFloatsAreExact | crates/pg_flatbuffers/src/from_json.rs:1268-1278 | an integer written as a float is accepted exactly when its value is in range, or is 2^63 for a `long` |
| Scalars.BoolsAreExact | crates/pg_flatbuffers/src/from_json.rs:1025-1060 | a bool takes `true` and `false` only |
| Scalars.EnumsAreExact | crates/pg_flatbuffers/src/from_json.rs:1363-1410 | an enum takes the first member of the given name, or an integer within `i64`, in the type's range, and has the stated error otherwise |
| Scalars.FloatsAreExact | crates/pg_flatbuffers/src/from_json.rs:1343-1361 | a float takes every JSON number, integers cast, and nothing else |
| Scalars.ShownExactly | crates/pg_flatbuffers/src/to_json.rs:565-700 | an integer is shown as itself, a bool as a bool, an enum's number by its first name if it has one |
| Scalars.FloatsShown | crates/pg_flatbuffers/src/to_json.rs:895-909 | a stored float is shown as the number it is, or is an error if it is not finite |
| KeyText.TextOfShown | crates/pg_flatbuffers/src/to_json.rs:466-488 | the text of a stored key is that of the number `to_json` shows, a bool's that of 1 or 0 |
| Schema.CastWraps | crates/pg_flatbuffers/src/from_json.rs:1191-1246 | a default cast to its type is the one number in range that differs by a multiple of 2^bits |
| Schema.ByIdSorts | crates/pg_flatbuffers/src/to_json.rs:100-130 | `to_json` visits all fields once, in ascending id |
| Schema.StructByIdSorts | crates/pg_flatbuffers/src/to_json.rs:235-260 | the same in a struct |
| Text.ParsesExactly | crates/pg_flatbuffers/src/query/executor/map_key.rs:161-182 | a text is an `i64` exactly if it is decimal digits with an optional sign and its value by places fits 64 bits |
| Text.LessExactly | crates/pg_flatbuffers/src/from_json.rs:822-830 | one text is less if at the first difference it has ended or has the smaller byte |
| Scalars.EncodedFits | crates/pg_flatbuffers/src/from_json.rs:1025-1246 | every accepted value fits the field's type |
| Scalars.ReadScalarBytes | crates/pg_flatbuffers/src/to_json.rs:650-700 | little-endian bytes of a scalar read back as the scalar, wherever they lie |
| Floats.NarrowWiden | crates/pg_flatbuffers/src/from_json.rs:1165-1173 | narrowing to `f32` undoes widening for every finite value |
| Floats.WidenFinite | crates/pg_flatbuffers/src/to_json.rs:895-909 | exactly the infinities and NaNs of an `f32` are refused by `to_json` |
| Floats.NarrowFinite | crates/pg_flatbuffers/src/from_json.rs:1165-1173 | a double narrows to a finite `f32` exactly if its magnitude bits are below half an ulp above `f32::MAX` |
| Floats.OfIntValue | crates/pg_flatbuffers/src/from_json.rs:1268-1278 | the double an integer rounds to has the rounded value |
| FloatValues.NarrowIsNearest | crates/pg_flatbuffers/src/from_json.rs:1165-1173 | below the overflow threshold narrowing gives the nearest `f32`, on a tie the one with an even mantissa, and keeps the sign |
| FloatValues.WidenIsExact | crates/pg_flatbuffers/src/to_json.rs:565-700 | widening keeps the value |
| FloatValues.CastIsNearest | crates/pg_flatbuffers/src/from_json.rs:1268-1278 | casting an integer gives the nearest `f64`, ties to even |
| FloatValues.IntegralIsExact | crates/pg_flatbuffers/src/from_json.rs:1268-1278 | a double counts as an integer exactly if it is one |
| FloatValues.EqualIsSameValue | crates/pg_flatbuffers/src/from_json.rs:1009-1023 | doubles are `==` exactly if they are the same number, the two zeros included |
| FloatValues.EqualSingles | crates/pg_flatbuffers/src/from_json.rs:1009-1023 | the same for `f32` |
| Blobs.BlobRoundTrip | crates/pg_flatbuffers/src/from_json.rs:2084-2107 | bytes printed as hex or base64 parse back to the bytes |
| Blobs.HexRoundTrip | crates/pg_flatbuffers/src/to_json.rs:952-960 | bytes are shown as two characters of "0123456789abcdef" each, the high one first, and that decodes to them |
| Blobs.HexExactly | crates/pg_flatbuffers/src/from_json.rs:2084-2107 | a text in either case is the hex of bytes exactly if its lower case is what they are shown as |
| Blobs.Base64Exactly | crates/pg_flatbuffers/src/from_json.rs:450-471 | a text is the base64 of bytes exactly if it is what they are shown as: padding, spare bits and alphabet are all checked |
| Blobs.AlphabetTable | crates/pg_flatbuffers/src/from_json.rs:450-471 | the alphabet is that of Table 1 of RFC 4648 |
| Blobs.GroupValue | crates/pg_flatbuffers/src/to_json.rs:349-380 | four digits are the 24 bits of three bytes, the first byte highest |
| BuildFacts.ByteItemsExactly | crates/pg_flatbuffers/src/from_json.rs:472-494 | an array is taken for a `[ubyte]` exactly if its items are the bytes, one for one and in order |
| BuildFacts.FirstBadByte | crates/pg_flatbuffers/src/from_json.rs:472-494 | otherwise the first item that is no byte decides the error |
| BuildFacts.ByteTextsExactly | crates/pg_flatbuffers/src/from_json.rs:450-471 | a text is taken exactly if it is the base64, or in either case the hex, of the bytes, and otherwise has the error of its form |
| BuildFacts.StrangerIsRefused | crates/pg_flatbuffers/src/from_json.rs:225-246 | a key that is no field's name, nor a union's with `_type`, is refused |
| BuildFacts.NullIsAbsent | crates/pg_flatbuffers/src/from_json.rs:211-400 | a `null` member of a field that is no union is as good as none |
| BuildFacts.KindsAreChecked | crates/pg_flatbuffers/src/from_json.rs:328-400 | a value of the wrong kind is a mismatch and a missing required one is reported |
| BuildFacts.TagsAreChecked | crates/pg_flatbuffers/src/from_json.rs:864-910 | a missing, malformed or unknown union tag has the stated error, and neither tag nor value is no union |
| BuildFacts.VariantsAreChecked | crates/pg_flatbuffers/src/from_json.rs:898-940 | NONE takes no value and any other variant needs one |
| BuildFacts.DispatchableExactly | crates/pg_flatbuffers/src/from_json.rs:1821-1885 | the struct sizes that can be written, as ranges of multiples of the alignment |
| BuildFacts.StructsExactly | crates/pg_flatbuffers/src/from_json.rs:1418-1463 | a struct is taken exactly from an object whose keys are its fields and that gives each a value it takes |
| BuildFacts.ArraysExactly | crates/pg_flatbuffers/src/from_json.rs:1517-1589 | a fixed array is taken exactly from an array of its length whose elements are all taken |
| BuildFacts.PaddingIsZero | crates/pg_flatbuffers/src/from_json.rs:1418-1463 | the bytes of a struct that belong to no field are zero |
| BuildFacts.StructVectorsExactly | crates/pg_flatbuffers/src/from_json.rs:1929-2012 | a struct vector is taken exactly from an array of fewer than 2^32 structs of a size that can be written |
| BuildErrors.IntegerErrors | crates/pg_flatbuffers/src/from_json.rs:1252-1338 | an integer field calls a JSON integer of its sign out of range, and any other value it refuses a mismatch |
| BuildErrors.StructErrors | crates/pg_flatbuffers/src/from_json.rs:1418-1463 | a struct reports a value that is no object, then an unknown key, then the first field that is missing, `null` or refused |
| BuildErrors.ArrayErrors | crates/pg_flatbuffers/src/from_json.rs:1517-1589 | a fixed array reports what is no array, then a wrong length as out of range, then its first refused element |
| BuildErrors.SizesAreChecked | crates/pg_flatbuffers/src/from_json.rs:1804-1927 | a struct whose size cannot be written is refused as a field and as a variant, and one without alignment is an internal error |
| BuildErrors.StructVectorErrors | crates/pg_flatbuffers/src/from_json.rs:626-663 | a struct vector reports the alignment, the first refused element, the size and the count, in this order |
| BuildErrors.ElementsExactly | crates/pg_flatbuffers/src/from_json.rs:496-702 | a vector of scalars, strings or tables is its elements encoded one by one, or reports the first that is refused |
| BuildErrors.RowErrors | crates/pg_flatbuffers/src/from_json.rs:761-818 | a row under a key builds exactly from an object whose key field can hold the key and holds nothing else; otherwise the stated error |
| BuildErrors.KeyedErrors | crates/pg_flatbuffers/src/from_json.rs:736-853 | of several refused rows the one with the least key is reported |
| BuildErrors.UnionErrors | crates/pg_flatbuffers/src/from_json.rs:287-304 | a required union without tag and value is missing, and a variant needs a one-byte value and a type |
| BuildErrors.VariantsExactly | crates/pg_flatbuffers/src/from_json.rs:864-988 | the variant that the tag names takes the value as the string, table or struct it is, and reports what that reports |
| WritePhase.SlotOfField | crates/pg_flatbuffers/src/from_json.rs:401-435 | the slot of a field holds what that field pushed, whatever else was written |
| WritePhase.SlotsOfUnion | crates/pg_flatbuffers/src/from_json.rs:416-431 | a union's two slots hold the tag and the content it pushed |
| WritePhase.TagAgrees | crates/pg_flatbuffers/src/from_json.rs:287-328 | a union's `_type` field and its pair write the same number |
| WritePhase.SlotAfter | crates/pg_flatbuffers/src/from_json.rs:401-435 | if all pushes that touch a slot agree, the slot ends up with their effect |
| Unions.TagIffValue | crates/pg_flatbuffers/src/from_json.rs:864-988 | in every built table the tag is non-zero exactly when the value slot is present |
| Unions.ReadersResolveAlike | crates/pg_flatbuffers/src/query/executor/union.rs:307-367 | in any buffer `to_json`, `\|type` and descent resolve the same variant or fail alike |
| Unions.BuiltVariant | crates/pg_flatbuffers/src/query/executor/union.rs:186-250 | after building, `\|type` returns the document's tag and descent enters the variant it names |
| Unions.TagWithoutValue | crates/pg_flatbuffers/src/to_json.rs:743-832 | in any buffer a tag whose value is not there is shown with `null` |
| Required.RequiredIsPresent | crates/pg_flatbuffers/src/from_json.rs:306-328 | every table that builds has its required strings, structs, tables and vectors |
| Required.RequiredUnion | crates/pg_flatbuffers/src/from_json.rs:287-304 | a required union is present exactly when the document's tag is not NONE |
| Theorems.LimitIsExact | crates/pg_flatbuffers/src/from_json.rs:2042-2047 | success implies the cost is within the limit, a nesting error that it is not, and larger limits change nothing |
| DepthLimit.TableDepth | crates/pg_flatbuffers/src/from_json.rs:211-219 | the same for a table at any depth: a sub-table or table variant costs 1, a table in an array 2, in a keyed object 3 |
| Theorems.LenientDocument | crates/pg_flatbuffers/src/from_json.rs:225-251 | with unknown keys allowed, the result is the strict result on the document without them |
| Lenient.StructsStayStrict | crates/pg_flatbuffers/src/from_json.rs:1432-1445 | a struct object with an unknown key never builds, whatever the option |
| Lenient.LenientTable | crates/pg_flatbuffers/src/from_json.rs:225-251 | the same for a table at any depth |
| Lenient.LenientKeyed | crates/pg_flatbuffers/src/from_json.rs:736-853 | erasing unknown keys from rows commutes with injecting keys and sorting |
| Builder.FlatBufferBuilder.PushSlot | crates/pg_flatbuffers/src/from_json.rs:1009-1023 | a scalar equal to its default leaves the open table as it was; any other replaces the slot |
| Builder.PushVectorOfStructs | crates/pg_flatbuffers/src/from_json.rs:1929-1957 | structs pushed last to first leave the count and the bytes in their order |
| Builder.PushVectorOfOffsets | crates/pg_flatbuffers/src/from_json.rs:684-692 | offsets pushed last to first lead to the tables in their order |
| Builder.WriteTable | crates/pg_flatbuffers/src/from_json.rs:401-435 | the closed table unfolds to the pending pushes written in order, or the first error is returned |
| JsonBuilder.BuildTable | crates/pg_flatbuffers/src/from_json.rs:211-435 | appends nodes only, and the new node unfolds to the specified table, or the specified first error is returned |
| JsonBuilder.BuildField | crates/pg_flatbuffers/src/from_json.rs:281-399 | one turn of the pre-build loop yields the field's push, its absence or its error |
| JsonBuilder.BuildVector | crates/pg_flatbuffers/src/from_json.rs:439-702 | the new node unfolds to the specified vector, or the specified error is returned |
| JsonBuilder.BuildKeyed | crates/pg_flatbuffers/src/from_json.rs:736-853 | collects, sorts and builds the rows of a keyed object as specified |
| JsonBuilder.CollectEntries | crates/pg_flatbuffers/src/from_json.rs:768-820 | the loop over members returns every entry in object order or the first error |
| JsonBuilder.BuildUnionPair | crates/pg_flatbuffers/src/from_json.rs:864-988 | yields the pair the document asks for, its absence or its error |
| JsonBuilder.BuildBuffer | crates/pg_flatbuffers/src/from_json.rs:176-204 | a fresh builder ends up with an acyclic buffer whose root unfolds to the specified document |
| Buffer.UnfoldStable | crates/pg_flatbuffers/src/from_json.rs:205-215 | appending nodes changes nothing that was built before |
| JsonReader.BufToJson | crates/pg_flatbuffers/src/to_json.rs:81-98 | reading the nodes of a buffer gives what is specified on its tree |
| JsonReader.TableToJson | crates/pg_flatbuffers/src/to_json.rs:100-230 | the loop over fields in id order builds the specified object or stops at the specified error |
| JsonReader.VectorToJson | crates/pg_flatbuffers/src/to_json.rs:349-500 | every kind of vector is read as specified |
| JsonReader.RowsToJson | crates/pg_flatbuffers/src/to_json.rs:435-490 | a keyed vector's rows end up under their keys, a later row replacing an earlier one with the same key |
| JsonReader.StructsToJson | crates/pg_flatbuffers/src/to_json.rs:505-535 | a struct vector's elements are read one stride apart behind the count word |
| JsonReader.UnionToJson | crates/pg_flatbuffers/src/to_json.rs:743-832 | emits the tag's name and the value the tag selects |
| ExecutorFacts.ExactlyOneLeaf | crates/pg_flatbuffers/src/query/executor/walk.rs:24-187 | on any node graph a path without `[*]` and `\|keys` has exactly one leaf |
| ExecutorFacts.FanOutIsIndexedAccess | crates/pg_flatbuffers/src/query/executor/vector.rs:88-259 | `[*]tail` on a present vector is the concatenation of `[i]tail`, including the same first error |
| ExecutorFacts.ArrayFanOut | crates/pg_flatbuffers/src/query/executor/struct_.rs:254-407 | the same for a fixed-size array |
| FillDefaults.FillIsTheOnlyEffect | crates/pg_flatbuffers/src/query/executor/walk.rs:98-132 | runs with filling on and off give the same error, or lists that differ only where an absent scalar is its default in one and NULL in the other |
| FillDefaults.FilledKey | crates/pg_flatbuffers/src/query/executor/map_key.rs:227-329 | the same through a key lookup: the option never changes which row is found |
| Theorems.QueryIsSelection | crates/pg_flatbuffers/src/query/executor/mod.rs:206-228 | the `to_json` document of any buffer decides whether a query succeeds or fails, and a successful query returns the text of what its path selects, in order, defaults included |
| Theorems.QueryOfDocument | crates/pg_flatbuffers/src/query/executor/mod.rs:206-228 | a query of a buffer built from a document succeeds exactly if the document's canonical form answers it, always if it resolves in the schema, and then selects from that form |
| QueryVerdicts.ResolvedIsAnswered | crates/pg_flatbuffers/src/query/executor/walk.rs:24-187 | a query whose steps find their fields and end at scalars or strings is answered on every document without nulls |
| QueryVerdicts.NullFreeTells | crates/pg_flatbuffers/src/query/executor/union.rs:53-300 | a document without nulls decides every query |
| CanonNulls.CanonNullFree | crates/pg_flatbuffers/src/to_json.rs:100-230 | the canonical form of an accepted document holds no `null` |
| BuiltLookups.BuiltTable | crates/pg_flatbuffers/src/from_json.rs:822-853 | in a built buffer, rows given as an object with distinct, shown keys are searched in ascending order along any path |
| SameReaders.TableAgrees | crates/pg_flatbuffers/src/query/executor/walk.rs:24-187 | the same for a table anywhere in a buffer |
| SameReaders.StructAgrees | crates/pg_flatbuffers/src/query/executor/struct_.rs:57-229 | walking a struct at any location succeeds exactly if its path resolves with sized structs, and is selecting from its document |
| SameReaders.ArrayAgrees | crates/pg_flatbuffers/src/query/executor/struct_.rs:254-407 | indexing and fanning out over an array succeeds exactly if the path goes on to a leaf or leaves the array, and is selecting from its JSON array |
| SameReaders.UnionFieldAgrees | crates/pg_flatbuffers/src/query/executor/union.rs:53-174 | descending through a union succeeds or fails as the variant that the document's tag names, and is selecting below its member |
| SameReaders.VariantLeafAgrees | crates/pg_flatbuffers/src/query/executor/union.rs:255-300 | a union value leaf is a string variant's text; of any other value it is refused |
| SameReaders.StructVectorAgrees | crates/pg_flatbuffers/src/query/executor/vector.rs:88-259 | struct elements by index and by `[*]` are those of the JSON array, with NULL past its end and an error without a size or a field |
| SameReaders.TableVectorAgrees | crates/pg_flatbuffers/src/query/executor/vector.rs:88-259 | table elements by index and by `[*]` are those of the JSON array, and the first element that fails fails the query |
| SameReaders.LeafVectorAgrees | crates/pg_flatbuffers/src/query/executor/vector.rs:310-464 | scalar and string elements are always read and are the text of the JSON array's values |
| SameReaders.KeyLookupAgrees | crates/pg_flatbuffers/src/query/executor/map_key.rs:227-329 | looking up a row among ascending keys, in either mode, and walking on is selecting under the row's key in the `to_json` object; a key that is not there is NULL |
| SameReaders.DefaultShows | crates/pg_flatbuffers/src/query/executor/util.rs:61-79 | a filled default is the number `to_json` shows exactly if the default is not an integer or lies in its type's range |
| SameReaders.FoundField | crates/pg_flatbuffers/src/query/executor/util.rs:10-40 | a step finds a field of the table that has its name or id, and none exactly if the table has no such field |
| SameReaders.FoundStructField | crates/pg_flatbuffers/src/query/executor/util.rs:10-40 | the same in a struct |
| ExecutorFacts.IdIsName | crates/pg_flatbuffers/src/query/executor/util.rs:10-40 | with distinct names and ids, a query by a field's id and one by its name are one |
| ExecutorFacts.OnlyKeyField | crates/pg_flatbuffers/src/query/executor/map_key.rs:19-39 | the key field is the only one marked; none, or several, is the stated error |
| ExecutorFacts.AbsentRows | crates/pg_flatbuffers/src/query/executor/map_key.rs:227-397 | of an absent keyed vector an index and a key are NULL, and `[*]` and `\|keys` have no leaves |
| ExecutorFacts.ByteElements | crates/pg_flatbuffers/src/query/executor/vector.rs:310-464 | the elements of a `[ubyte]` are its bytes as numbers, in order, and an index past the end is NULL |
| ExecutorFacts.WrongStepIsRefused | crates/pg_flatbuffers/src/query/executor/walk.rs:24-187 | a step that cannot follow a scalar, string, union tag or vector is refused with the stated error, whatever the buffer holds |
| ExecutorFacts.OnlyFieldsFollow | crates/pg_flatbuffers/src/query/executor/walk.rs:24-187 | a table or struct that is there is no leaf and is followed by fields only, with the stated error otherwise |
| ExecutorFacts.MissingFieldIsReported | crates/pg_flatbuffers/src/query/executor/walk.rs:24-96 | a name or id that no field of the table or struct has is reported as a missing field |
| QueryErrors.StructSteps | crates/pg_flatbuffers/src/query/executor/struct_.rs:57-229 | in a struct a scalar ends the path, a tag is no leaf, and a fixed array needs sized elements and an index or `[*]` |
| QueryErrors.ArraySteps | crates/pg_flatbuffers/src/query/executor/struct_.rs:254-407 | an index past a fixed array is NULL, a scalar element lies that many sizes in, and what cannot follow has the stated error |
| QueryErrors.StructElements | crates/pg_flatbuffers/src/query/executor/vector.rs:88-259 | struct elements are no leaves, NULL past the end and absent, and an error without a size |
| QueryErrors.TableElements | crates/pg_flatbuffers/src/query/executor/vector.rs:88-259 | table elements are NULL past the end whatever follows, and otherwise no leaves |
| QueryErrors.LeafElements | crates/pg_flatbuffers/src/query/executor/vector.rs:310-464 | nothing follows a scalar or string element, and tags are not read |
| QueryErrors.KeySteps | crates/pg_flatbuffers/src/query/executor/map_key.rs:227-329 | a lookup reports the key field, the end of the path and the key type in this order; the scan sees the last only if there is a row |
| QueryErrors.KeysSteps | crates/pg_flatbuffers/src/query/executor/map_key.rs:337-397 | `\|keys` reports the key field and then anything that follows it |
| QueryErrors.UnionSteps | crates/pg_flatbuffers/src/query/executor/union.rs:53-300 | a tag that no variant has is a fault, and NONE is NULL whatever the value slot holds |
| QueryErrors.VariantSteps | crates/pg_flatbuffers/src/query/executor/union.rs:53-300 | `\|type` is the name of the tag's variant; a string variant is a leaf, a table or struct is none and only their fields follow |
| LeafQueries.EnumFieldAgrees | crates/pg_flatbuffers/src/query/executor/leaf.rs:20-80 | a query of an enum field prints the number that the document's name or number encodes to |
| LeafQueries.BytesAgree | crates/pg_flatbuffers/src/query/executor/vector.rs:310-464 | a query of a `[ubyte]` prints, by index and `[*]`, the bytes that the document's text decodes to |
| MapKeys.MatchIsEqual | crates/pg_flatbuffers/src/query/executor/map_key.rs:53-109 | the scan's comparison and the bisect's comparison call the same keys equal and fail alike |
| MapKeys.BisectRefinesScan | crates/pg_flatbuffers/src/query/executor/map_key.rs:282-325 | on sorted unique keys both modes find the same element, except on an empty vector with an unsupported key type |
| LookupModes.PathsAgree | crates/pg_flatbuffers/src/query/executor/map_key.rs:227-329 | strict and lenient mode give the same leaves or error on every path whose keyed vectors are ascending, or on the chain, and not empty with an unsupported key type |
| MapKeys.BisectExact | crates/pg_flatbuffers/src/query/executor/map_key.rs:197-205 | with a band of keys that do not parse, the modes agree on every literal a query can carry if and only if the band's size is on the bisect's chain |
| MapKeys.UnsignedLookupExact | crates/pg_flatbuffers/src/query/executor/map_key.rs:190-205 | the same in terms of a sorted `ulong` vector and how many keys exceed `i64::MAX` |
| Literals.UnsignedAnswersExact | crates/pg_flatbuffers/src/query/executor/map_key.rs:190-205 | in any buffer with a sorted `ulong` vector the modes answer every query of a row's key alike if and only if the count of keys above `i64::MAX` is on the chain |
| Literals.LargeKeyHidesSmallOne | crates/pg_flatbuffers/src/query/executor/map_key.rs:190-205 | from one document a buffer is built on which the parsed query `T:v[+1].k` answers NULL strictly and 1 leniently |
| Literals.AskableExactly | crates/pg_flatbuffers/src/query/parser.rs:335-387 | some query within the bounds carries a literal exactly if it is a key text and its shortest query fits |
| Literals.ReachedExactly | crates/pg_flatbuffers/src/query/parser.rs:362-387 | every integer key can be asked for, with a sign, and a string key exactly if it is itself a key text |
| SugarLookup.SortIsStrict | crates/pg_flatbuffers/src/from_json.rs:822-830 | the sort makes a permutation of the entries that ascends strictly |
| SugarLookup.CompileIsKeyOf | crates/pg_flatbuffers/src/query/executor/map_key.rs:161-182 | reader and writer decode a key the same way |
| SugarLookup.CompareIsKeyLess | crates/pg_flatbuffers/src/query/executor/map_key.rs:197-205 | reader and writer order keys the same way |
| SugarLookup.SugarThenLookup | crates/pg_flatbuffers/src/query/executor/map_key.rs:282-315 | strict lookup of a literal finds the row of the object key it denotes, and NULL when it denotes none |
| SugarLookup.KeysAreListed | crates/pg_flatbuffers/src/query/executor/map_key.rs:337-397 | `\|keys` lists all decoded object keys in strictly ascending order |
| ExecutorLoops.FindIndex | crates/pg_flatbuffers/src/query/executor/map_key.rs:282-329 | the bisect and scan loops stop at the specified element |
| ExecutorLoops.WalkVectorAtMapKey | crates/pg_flatbuffers/src/query/executor/map_key.rs:227-329 | the whole lookup, errors first, is as specified |
| ExecutorLoops.WalkVectorMapKeys | crates/pg_flatbuffers/src/query/executor/map_key.rs:337-397 | the loop returns every element's key in wire order |
| ExecutorLoops.FindKeyedField | crates/pg_flatbuffers/src/query/executor/map_key.rs:19-39 | one pass finds the only key field and refuses none or several |
| ExecutorLoops.WalkVectorAll | crates/pg_flatbuffers/src/query/executor/vector.rs:180-259 | the appending loops return the specified leaves or the first error |
| ExecutorLoops.FanOutArray | crates/pg_flatbuffers/src/query/executor/struct_.rs:330-346 | the fan-out arm of an array returns the specified leaves or the first error |
| QueryParser.ParseWithBounds | crates/pg_flatbuffers/src/query/parser.rs:48-72 | the parser returns the specified query, or the specified error and position |
| QueryParser.SplitInput | crates/pg_flatbuffers/src/query/parser.rs:78-121 | the header splits at its colons, with the specified first error |
| QueryParser.ValidateSchemaName | crates/pg_flatbuffers/src/query/parser.rs:138-159 | the loop reports the first character out of place |
| QueryParser.ValidateTableName | crates/pg_flatbuffers/src/query/parser.rs:164-202 | the flag-driven loop reports the first character or segment out of place |
| QueryParser.Parser.ParseSegments | crates/pg_flatbuffers/src/query/parser.rs:232-255 | from any valid cursor, consumes the rest of the path into `steps` or reports the specified error |
| QueryParser.Parser.ParseSegment | crates/pg_flatbuffers/src/query/parser.rs:257-333 | consumes one segment and leaves cursor and steps as specified |
| QueryParser.Parser.ParseBracket | crates/pg_flatbuffers/src/query/parser.rs:335-387 | consumes one bracket, pushing its step within the depth limit |
| QueryParser.Parser.ParsePipe | crates/pg_flatbuffers/src/query/parser.rs:389-430 | consumes a terminal marker and refuses anything but a dot behind it |
| QueryParser.Parser.Push | crates/pg_flatbuffers/src/query/parser.rs:438-451 | appends within the limit; at the limit reports the position behind the token |
| ParserFacts.ParseExactly | crates/pg_flatbuffers/src/query/parser.rs:48-121 | a text parses to a query if and only if it spells that query and both keep within the bounds |
| ParserFacts.ParsePrinted | crates/pg_flatbuffers/src/query/parser.rs:48-72 | parsing a printed query is the identity on well-formed queries within the bounds |
| ParserFacts.PrintIsCanonical | crates/pg_flatbuffers/src/query/parser.rs:48-72 | the printed form of what parses is no longer and parses to the same query |
| ParserFacts.SpelledUpToZeros | crates/pg_flatbuffers/src/query/parser.rs:362-369 | spellings of one step differ only by leading zeros in ids and indices |
| ParserFacts.ParsedIsWellFormed | crates/pg_flatbuffers/src/query/parser.rs:232-450 | parsed steps have the segment shape, number 1 to the limit, and key texts are never empty, `*`, a number, or contain `]` or `:` |
| ParserFacts.ErrorsPointIntoText | crates/pg_flatbuffers/src/query/parser.rs:138-450 | every error position lies in the text, and a character error names the character there, but for a trailing dot |
| NameTexts.SchemaNameExactly | crates/pg_flatbuffers/src/query/parser.rs:138-159 | a schema name is letters, digits and underscores, no digit first; otherwise the first character that does not fit is reported where it stands |
| NameTexts.TableNameExactly | crates/pg_flatbuffers/src/query/parser.rs:164-202 | a table name is such words between dots; otherwise the first character that does not fit, or the end, is reported |
| NameTexts.FieldExactly | crates/pg_flatbuffers/src/query/parser.rs:257-333 | a field is a word as long as it goes, or `#` and a number up to 65535; anything else is reported there |
| NameTexts.ContentExactly | crates/pg_flatbuffers/src/query/parser.rs:362-387 | between brackets stands a star, decimal digits up to 2^64-1, or a key's text |
| NameTexts.BracketExactly | crates/pg_flatbuffers/src/query/parser.rs:335-387 | a bracket goes to the first `]`, and what is wrong is reported at or behind it |
| NameTexts.OpenBracket | crates/pg_flatbuffers/src/query/parser.rs:335-361 | a bracket that nothing closes is reported where it stands |
| NameTexts.PipeExactly | crates/pg_flatbuffers/src/query/parser.rs:389-430 | behind `\|` stand the letters of `keys` or `type`, and any other letters are reported at it |
| NameTexts.BehindMarker | crates/pg_flatbuffers/src/query/parser.rs:389-430 | what stands behind a marker and is no dot is reported there |
| NameTexts.DepthIsReported | crates/pg_flatbuffers/src/query/parser.rs:438-451 | the step past the limit is reported at its end |
| NameTexts.HeaderFaults | crates/pg_flatbuffers/src/query/parser.rs:48-121 | a text that is too long, has no colon, or has no table or path has the stated error and position |
| NameTexts.WordsParse | crates/pg_flatbuffers/src/query/parser.rs:48-72 | any two words make a query of a table's field |
| NameTexts.SchemaWordsParse | crates/pg_flatbuffers/src/query/parser.rs:48-72 | any three words make one with a schema |
| NameTexts.StrangerIsReported | crates/pg_flatbuffers/src/query/parser.rs:232-255 | a character behind a field that continues nothing is refused where it stands |
| NameTexts.NoFieldIsReported | crates/pg_flatbuffers/src/query/parser.rs:257-290 | a character that starts no field is refused where the field would stand |
| ParserFacts.Complete | crates/pg_flatbuffers/src/query/parser.rs:232-450 | from any cursor, text that spells steps is consumed into exactly those steps |
| ParserFacts.Sound | crates/pg_flatbuffers/src/query/parser.rs:232-450 | from any cursor, what is consumed spells the steps returned |
| Grammar.PrintSpells | crates/pg_flatbuffers/src/query/parser.rs:14-28 | the printed form of a well-formed query is in the grammar |
| SchemaCache.Cache.LookupSchema | crates/pg_flatbuffers/src/schema_cache.rs:113-118 | a hit returns and refreshes the entry; a miss loads, verifies and inserts |
| SchemaCache.Cache.LoadAndInsert | crates/pg_flatbuffers/src/schema_cache.rs:148-207 | resolves the OID first, returns a row exactly if the catalog holds it and it verifies, and caches it then only |
| SchemaCache.Cache.ResolveOid | crates/pg_flatbuffers/src/schema_cache.rs:213-219 | the OID is set once and kept |
| SchemaCache.Cache.Invalidate | crates/pg_flatbuffers/src/schema_cache.rs:130-132 | removes one name and nothing else |
| SchemaCache.Cache.InvalidateAll | crates/pg_flatbuffers/src/schema_cache.rs:136-142 | leaves no entry |
| SchemaCache.Cache.RelcacheCallback | crates/pg_flatbuffers/src/schema_cache.rs:250-257 | flushes everything on a matching or global message and nothing otherwise |
| SchemaCache.LookupsReadTheCatalog | crates/pg_flatbuffers/src/schema_cache.rs:113-207 | after any run of commits, messages, drained and undrained lookups and evictions, a drained lookup answers with a schema exactly if the catalog holds it under the name now and it verifies, and otherwise the error says which it is not |
| SchemaCache.CachedSchemasVerify | crates/pg_flatbuffers/src/schema_cache.rs:184-205 | in every reachable state, undrained lookups included, every cached schema verifies |
| SchemaCache.EntriesByRecency | crates/pg_flatbuffers/src/schema_cache.rs:94-118 | in every reachable state the entries stand in the order of their last lookups |
| SchemaCache.LookupCaches | crates/pg_flatbuffers/src/schema_cache.rs:113-207 | what a lookup answers with is the first entry, and the next lookup of the name needs no catalog |
| SchemaCache.OtherMessagesKeep | crates/pg_flatbuffers/src/schema_cache.rs:250-257 | a message about another relation changes nothing |
| SchemaCache.StepKeepsCoherence | crates/pg_flatbuffers/src/schema_cache.rs:113-257 | every event, undrained lookups included, keeps entries fresh or a flushing message pending |
| SchemaCache.MatchingMessageFlushes | crates/pg_flatbuffers/src/schema_cache.rs:250-257 | the OID is known whenever there is something to flush |
| SchemaCache.CacheIsBounded | crates/pg_flatbuffers/src/schema_cache.rs:87-100 | the cache never exceeds 128 entries and is empty until the OID is known |
| SchemaCache.PutEvictsLast | crates/pg_flatbuffers/src/schema_cache.rs:94-100 | an insertion drops at most the last entry, and only from 128 that lack the name |
| SchemaCache.StaleWithoutDelivery | crates/pg_flatbuffers/src/schema_cache.rs:113-118 | a lookup that does not drain the queue can answer from before the last commit |

## Left out

- The FlatBuffers verifier and builder internals: vtable bytes, alignment, deduplication and uoffset arithmetic. A verified node graph and an append-only builder stand for them.
- The finished-size bound of `json_to_buf` and its error, and the builder's panic past 2 GiB, which a struct vector of 2^32 elements reports as an internal error.
- Malformed reflection schemas: indices out of range, negative sizes and base types at positions where the compiler never puts them. Type indices are resolved.
- Error messages and payloads: errors keep their kind, and parser errors their position and character.
- JSON text: `serde_json` parsing and printing. Documents start as values, with numbers as 64-bit integers or finite doubles.
- Float text: what `float4out` and `float8out` print for given bits, and NaN payloads.
- Vectors of 64-bit offsets and nested vectors, which the schema scan refuses before conversion; the model returns the source's errors for them.
- Executor.FindField: model the first field with a name or id; the library's binary search by name assumes the sorted field list.
- Theorems.QueryIsSelection: covers paths of fields, indices, `[*]` and rows looked up among ascending keys, ending in non-enum leaves (whatever steps stand behind a scalar or string); defaults printed must lie in their type's range; by index and `[*]` keyed vectors have another order than their JSON object, `[ubyte]` is text there, and enum leaves are names (for these two see `LeafQueries`). Of a union value that is `null` in the document it does not say whether a leaf query succeeds; canonical documents have none.
- Theorems.ReencodesExactly: needs unique enum, variant and field names, enums of integers only, and tag fields as the schema compiler generates them; the same for `Theorems.ComesBackExactly`.
- Theorems.CanonIsIdempotent: needs unique enum, variant and field names, and enums of integers only.
- A map key that is not valid UTF-8: queries are valid UTF-8, so the parser's arm for it cannot be reached.
- Postgres plumbing: SQL functions, settings, the catalog table and its triggers, snapshots, transactions, and dropping the extension. A catalog read sees the latest commit and the relation's OID is fixed.
- Concurrency inside one backend: it is single-threaded, so the mutex around the cache is not modelled.
