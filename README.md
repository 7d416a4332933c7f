# BuiltStatement: render cache and routing key of a query-builder statement

This project models, in Dafny, the core of the Java driver's query builder
`BuiltStatement` (`com.datastax.driver.core.utils.querybuilder`) and its nested
`ForwardingStatement`:

- the **render cache**: `getQueryString` trims the text the concrete statement
  renders, appends the terminator `;` when it is missing, caches the result and
  serves it again until `setDirty` marks it stale;
- the **routing key**: one slot per partition-key column, filled by
  `maybeAddRoutingKey` as values are bound to column names, and assembled by
  `getRoutingKey` once every slot is filled: a single column's encoded value as
  it is, or else the composite key built by `compose`;
- the **composite key format** of `compose` and `putShortLength`: for each
  component, a big-endian two-byte length, the bytes, and a zero byte;
- the **forwarding wrapper**, which hands `getQueryString`, `getRoutingKey` and
  `setDirty` to the statement it wraps and whose own rendering hook throws.

Files:

- `Wrappers.dfy`: `Option` (Java's null), `Result` and `Outcome` (a thrown exception).
- `Schema.dfy`: bytes, the two errors (`InvalidType`, `UnsupportedOperation`), a
  partition-key column as a name plus its type's parser, and table metadata.
- `QueryText.dfy`: `String.trim` and the terminator rule of `getQueryString`.
- `CompositeKey.dfy`: the composite format as functions (`Record`, `Composed`,
  `TotalLength`), a reader `Decompose` as its partner, and the buffer-filling
  methods `PutShortLength`, `Put`, `PutRecord` and `Compose`, proved equal to the
  functions.
- `RoutingKey.dfy`: the slots as values: first-match lookup (`IndexOf`), one bind
  (`Bind`), a sequence of binds (`Binds`) and the key (`RoutingKeyOf`).
- `QueryBuilder.dfy`: the classes `BuiltStatement` (fields `partitionKey`,
  `routingKey` as an array of optional byte strings, `dirty`, `cache`) and
  `ForwardingStatement`, whose methods are proved against the functions above,
  and three client methods that exercise them.

The abstract hook `buildQueryString` is modelled as a parameter: each call of
`GetQueryString` receives, as `hook`, the text the concrete statement would
render at that moment, and the ghost counter `renders` counts the calls that
actually consult it. The per-column encoder is the `parse` function carried by a
`Column`; it may fail, and its failure reaches the caller of `MaybeAddRoutingKey`.

Behaviours of the code that are easy to miss:

- The dirty flag is never cleared (`BuiltStatement.java:28-33`): once
  `setDirty` has run, every later `getQueryString` renders again
  (`DirtyStatementAlwaysRerenders`).
- Text ending in `;;` keeps both, because the code looks only at the last character
  (`NormalizeExampleDoubleTerminator`).
- The length prefix of `compose` is `length & 0xFFFF`: a component of 65536
  bytes or more gets a truncated prefix (`LengthPrefixWraps`). The key reads
  back when every component is shorter (`DecomposeComposed`) and does not read
  back otherwise (`DecomposeRejectsLongComponent`).
- Two components `01 02` and `AA` give nine bytes, `00 02 01 02 00 00 01 AA 00`.

## Model

| member | source | states |
|---|---|---|
| QueryBuilder.BuiltStatement.Unbound | driver-core/src/main/java/com/datastax/driver/core/utils/querybuilder/BuiltStatement.java:17-20 | the no-argument constructor leaves both the partition key and the slot array absent, with a clean, empty cache |
| QueryBuilder.BuiltStatement.ForTable | driver-core/src/main/java/com/datastax/driver/core/utils/querybuilder/BuiltStatement.java:22-25 | the table constructor keeps the table's partition key and allocates a fresh slot array exactly as long, every slot empty |
| QueryBuilder.BuiltStatement.GetQueryString | driver-core/src/main/java/com/datastax/driver/core/utils/querybuilder/BuiltStatement.java:27-34 | a clean statement with cached text returns it without consulting the hook; otherwise the hook's text is trimmed, terminated and cached; the result always ends with ';'; the dirty flag is untouched |
| QueryBuilder.BuiltStatement.SetDirty | driver-core/src/main/java/com/datastax/driver/core/utils/querybuilder/BuiltStatement.java:38-40 | the statement becomes dirty and no other field changes (so a second call changes nothing) |
| QueryBuilder.BuiltStatement.MaybeAddRoutingKey | driver-core/src/main/java/com/datastax/driver/core/utils/querybuilder/BuiltStatement.java:43-53 | without slots or without a name nothing changes; otherwise the new slots are those `Bind` gives, and a parse failure is reported with every slot left as it was |
| QueryBuilder.BuiltStatement.GetRoutingKey | driver-core/src/main/java/com/datastax/driver/core/utils/querybuilder/BuiltStatement.java:55-66 | the returned key is `RoutingKeyOf` of the current slots: absent without a partition key or while a slot is empty |
| QueryBuilder.ForwardingStatement.constructor | driver-core/src/main/java/com/datastax/driver/core/utils/querybuilder/BuiltStatement.java:97-99 | the wrapper keeps the target and its own statement part comes from the no-argument constructor, so it has no slots |
| QueryBuilder.ForwardingStatement.GetQueryString | driver-core/src/main/java/com/datastax/driver/core/utils/querybuilder/BuiltStatement.java:101-104 | the result and the wrapped statement's new cache are exactly those of the wrapped statement's own getQueryString |
| QueryBuilder.ForwardingStatement.BuildQueryString | driver-core/src/main/java/com/datastax/driver/core/utils/querybuilder/BuiltStatement.java:106-108 | the wrapper's rendering hook always fails with an unsupported-operation error |
| QueryBuilder.ForwardingStatement.GetRoutingKey | driver-core/src/main/java/com/datastax/driver/core/utils/querybuilder/BuiltStatement.java:110-113 | the key is the routing key of the wrapped statement's slots |
| QueryBuilder.ForwardingStatement.SetDirty | driver-core/src/main/java/com/datastax/driver/core/utils/querybuilder/BuiltStatement.java:115-118 | the wrapped statement becomes dirty; only its dirty flag may change |
| QueryBuilder.ForwardingStatement.MaybeAddRoutingKey | driver-core/src/main/java/com/datastax/driver/core/utils/querybuilder/BuiltStatement.java:43-45 | the inherited bind runs on the wrapper's absent slots: it always completes and, having no frame, cannot change the wrapped statement |
| QueryBuilder.DirtyStatementAlwaysRerenders | driver-core/src/main/java/com/datastax/driver/core/utils/querybuilder/BuiltStatement.java:27-40 | after setDirty two reads in a row both consult the hook and the statement stays dirty |
| QueryBuilder.CleanStatementRendersOnce | driver-core/src/main/java/com/datastax/driver/core/utils/querybuilder/BuiltStatement.java:27-34 | on a fresh statement a second read returns the first result, whatever the hook would now render |
| QueryBuilder.TwoColumnKeyExample | driver-core/src/main/java/com/datastax/driver/core/utils/querybuilder/BuiltStatement.java:43-88 | with two columns bound to 01 02 and AA: no key while only the second is bound; after a bind through a wrapper and a bind to a non-key column the slots are still empty and AA; once both are bound the key is 00 02 01 02 00 00 01 AA 00 |
| QueryText.LeadingBlanks | driver-core/src/main/java/com/datastax/driver/core/utils/querybuilder/BuiltStatement.java:29 | the count covers only characters up to U+0020 and stops at the first other character |
| QueryText.TrailingBlanks | driver-core/src/main/java/com/datastax/driver/core/utils/querybuilder/BuiltStatement.java:29 | the count covers only characters up to U+0020 at the back and stops at the last other character |
| QueryText.Trim | driver-core/src/main/java/com/datastax/driver/core/utils/querybuilder/BuiltStatement.java:29 | the result is a slice of the input with no blank at either end, and everything cut from either end is blank |
| QueryText.Normalize | driver-core/src/main/java/com/datastax/driver/core/utils/querybuilder/BuiltStatement.java:29-31 | the cached text is trimmed and ends with ';', and is the trimmed text with at most one ';' added |
| QueryText.EndsWithSemicolonCharacterized | driver-core/src/main/java/com/datastax/driver/core/utils/querybuilder/BuiltStatement.java:30 | `endsWith(";")` holds exactly of the texts that are some text followed by ';' |
| QueryText.TrimOfTrimmed | driver-core/src/main/java/com/datastax/driver/core/utils/querybuilder/BuiltStatement.java:29 | trimming text with no blank at either end changes nothing |
| QueryText.NormalizeAppendsOnlyWhenMissing | driver-core/src/main/java/com/datastax/driver/core/utils/querybuilder/BuiltStatement.java:30-31 | the terminator is appended exactly when the trimmed text does not already end with ';' |
| QueryText.NormalizeKeepsTerminatedText | driver-core/src/main/java/com/datastax/driver/core/utils/querybuilder/BuiltStatement.java:29-31 | trimmed text that already ends with ';' (for instance with ';;') is kept unchanged |
| QueryText.NormalizeIdempotent | driver-core/src/main/java/com/datastax/driver/core/utils/querybuilder/BuiltStatement.java:29-31 | rendering the cached text again yields the same text |
| QueryText.NormalizeExampleTrailingBlanks | driver-core/src/main/java/com/datastax/driver/core/utils/querybuilder/BuiltStatement.java:29-31 | "SELECT * FROM t;  " becomes "SELECT * FROM t;" |
| QueryText.NormalizeExampleMissingTerminator | driver-core/src/main/java/com/datastax/driver/core/utils/querybuilder/BuiltStatement.java:29-31 | "SELECT * FROM t" becomes "SELECT * FROM t;" |
| QueryText.NormalizeExampleDoubleTerminator | driver-core/src/main/java/com/datastax/driver/core/utils/querybuilder/BuiltStatement.java:29-31 | " x;; " becomes "x;;": both terminators stay |
| CompositeKey.ShortLength | driver-core/src/main/java/com/datastax/driver/core/utils/querybuilder/BuiltStatement.java:85-88 | putShortLength writes exactly two bytes |
| CompositeKey.ShortLengthValue | driver-core/src/main/java/com/datastax/driver/core/utils/querybuilder/BuiltStatement.java:86-87 | read big-endian, the two bytes give the length modulo 2^16 |
| CompositeKey.Record | driver-core/src/main/java/com/datastax/driver/core/utils/querybuilder/BuiltStatement.java:77-79 | one component takes 2 + its length + 1 bytes |
| CompositeKey.TotalLength | driver-core/src/main/java/com/datastax/driver/core/utils/querybuilder/BuiltStatement.java:70-72 | the size compose allocates, the sum of 2 + length + 1 over the components, is at least three bytes per component |
| CompositeKey.Composed | driver-core/src/main/java/com/datastax/driver/core/utils/querybuilder/BuiltStatement.java:75-83 | the bytes compose returns, the components' records in order, are exactly as long as the buffer compose allocates |
| CompositeKey.ComposedSnoc | driver-core/src/main/java/com/datastax/driver/core/utils/querybuilder/BuiltStatement.java:75-80 | the key of v0..vk is the key of v0..vk-1 followed by the record of vk |
| CompositeKey.ComposedCons | driver-core/src/main/java/com/datastax/driver/core/utils/querybuilder/BuiltStatement.java:75-80 | the key starts with the first component's record, followed by the key of the rest |
| CompositeKey.ComposedConcat | driver-core/src/main/java/com/datastax/driver/core/utils/querybuilder/BuiltStatement.java:75-80 | the key of two concatenated component lists is the concatenation of their keys |
| CompositeKey.RecordPrefix | driver-core/src/main/java/com/datastax/driver/core/utils/querybuilder/BuiltStatement.java:77-79 | for a component shorter than 2^16 the record's prefix reads back as its length, followed by its bytes and a zero byte |
| CompositeKey.DecomposeComposed | driver-core/src/main/java/com/datastax/driver/core/utils/querybuilder/BuiltStatement.java:69-83 | round trip: a composite key of components shorter than 2^16 reads back as those components, in order |
| CompositeKey.DecomposeRejectsLongComponent | driver-core/src/main/java/com/datastax/driver/core/utils/querybuilder/BuiltStatement.java:86-87 | a composite key with a component of 2^16 bytes or more does not read back as its components |
| CompositeKey.LengthPrefixWraps | driver-core/src/main/java/com/datastax/driver/core/utils/querybuilder/BuiltStatement.java:86-87 | a 65536-byte component gets the prefix 00 00 |
| CompositeKey.ComposedExample | driver-core/src/main/java/com/datastax/driver/core/utils/querybuilder/BuiltStatement.java:75-80 | components 01 02 and AA give 00 02 01 02 00 00 01 AA 00 |
| CompositeKey.TotalLengthPrefix | driver-core/src/main/java/com/datastax/driver/core/utils/querybuilder/BuiltStatement.java:70-74 | the records of any prefix of the components fit in the allocated buffer |
| CompositeKey.PutShortLength | driver-core/src/main/java/com/datastax/driver/core/utils/querybuilder/BuiltStatement.java:85-88 | the two bytes at the position become the 16-bit length, the rest of the buffer is unchanged, and the position advances by two |
| CompositeKey.Put | driver-core/src/main/java/com/datastax/driver/core/utils/querybuilder/BuiltStatement.java:78 | the bytes are copied at the position, the rest of the buffer is unchanged, and the position advances past them |
| CompositeKey.PutRecord | driver-core/src/main/java/com/datastax/driver/core/utils/querybuilder/BuiltStatement.java:77-79 | one record is written at the position; what lies before it and after it is unchanged |
| CompositeKey.Compose | driver-core/src/main/java/com/datastax/driver/core/utils/querybuilder/BuiltStatement.java:69-83 | the filled buffer is exactly the composite key of the components, of the summed length |
| RoutingKey.EmptySlots | driver-core/src/main/java/com/datastax/driver/core/utils/querybuilder/BuiltStatement.java:24 | a table's statement starts with one empty slot per partition-key column |
| RoutingKey.IndexOf | driver-core/src/main/java/com/datastax/driver/core/utils/querybuilder/BuiltStatement.java:47-48 | the index found is the first column of that name; none is found only when no column has that name |
| RoutingKey.Bind | driver-core/src/main/java/com/datastax/driver/core/utils/querybuilder/BuiltStatement.java:47-52 | only the first matching column's slot changes, to the parsed value; a parse failure is the only failure and carries the parser's error; with no match nothing changes |
| RoutingKey.Binds | driver-core/src/main/java/com/datastax/driver/core/utils/querybuilder/BuiltStatement.java:43-53 | a sequence of binds keeps the number of slots |
| RoutingKey.Values | driver-core/src/main/java/com/datastax/driver/core/utils/querybuilder/BuiltStatement.java:65 | the fragments handed to compose are the slots' contents in column order |
| RoutingKey.RoutingKeyOf | driver-core/src/main/java/com/datastax/driver/core/utils/querybuilder/BuiltStatement.java:55-66 | a key is present exactly when there is a partition key and every slot is filled |
| RoutingKey.BindLastWriteWins | driver-core/src/main/java/com/datastax/driver/core/utils/querybuilder/BuiltStatement.java:47-50 | binding a column twice gives the same slots as binding only the second value |
| RoutingKey.BindsFill | driver-core/src/main/java/com/datastax/driver/core/utils/querybuilder/BuiltStatement.java:43-53 | after successful binds a slot is filled exactly when it was filled before or some bind named its column first |
| RoutingKey.KeyPresentIffEveryColumnBound | driver-core/src/main/java/com/datastax/driver/core/utils/querybuilder/BuiltStatement.java:55-61 | from a table's empty slots, the key is present after successful binds exactly when every partition-key column was bound |
| RoutingKey.SingleColumnKeyUnframed | driver-core/src/main/java/com/datastax/driver/core/utils/querybuilder/BuiltStatement.java:63-64 | with one partition-key column the key is that slot's bytes without framing |
| RoutingKey.CompositeKeyReadsBack | driver-core/src/main/java/com/datastax/driver/core/utils/querybuilder/BuiltStatement.java:63-65 | with any other number of columns the key has the summed record length and, when every fragment is shorter than 2^16 bytes, reads back as the fragments in column order |

## Left out

- The `Statement` superclass and its settings (consistency, retry policy, tracing): they do not touch rendering or routing.
- Table and column metadata lookup, `DataType.parse` and `Utils.toRawString`: their code is not part of this model. A column is a name plus a parser that may fail, and a bound value arrives already in its raw string form.
- Concrete `buildQueryString` implementations: the rendered text is the `hook` parameter.
- QueryBuilder.BuiltStatement.GetQueryString: the hook's text is passed in by the caller even when it is not used; that the hook is "not called" on a cache hit is stated through the ghost counter `renders`.
- `java.nio.ByteBuffer` positions and limits: buffers are byte sequences. In the code `out.put(bb)` advances each slot buffer's position, so a second composite `getRoutingKey` on the same slots sees empty components, and the single-column key is the slot's own buffer, shared with the caller. Neither effect exists in a value model.
- CompositeKey.Compose: `totalLength` is an unbounded integer here; the Java `int` would overflow only for keys above 2^31 bytes.
- ForwardingStatement wraps a `BuiltStatement` of this model only; a wrapper around another wrapper, which Java's generic parameter allows, is not modelled. No method of the source reassigns the protected `statement` field, so none does here.
- Threads: the code has no synchronisation and the model is single-threaded.
