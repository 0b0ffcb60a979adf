# waterline-schema, modelled in Dafny

This project models the schema normaliser of waterline-schema. That library turns a list of Waterline model definitions into a schema: each model's attributes checked, its associations expanded into foreign keys, its many-to-many associations given junction tables, and its plural associations annotated with the reference that leads back.

JavaScript values are modelled as `Values.Value`:

- `undefined`, `null`, booleans, numbers, strings and functions;
- plain objects as ordered lists of own properties (`Assoc.AList`), so key enumeration order is kept.

Every place where the JavaScript would throw becomes an `Err` of `Results.SchemaError`:

- an explicit `throw new Error(...)` gets an error of its own;
- a TypeError (a property read on `null`/`undefined`, `toLowerCase` on a non-string) is `TypeMismatch`.

Each pass that mutates shared objects inside a `for … in` loop is a fold over a snapshot of the keys. Every step reads the state the previous step left, just as the source's later lookups see earlier mutations.

Modules, one per file:

- `Results`, `Assoc`, `Strings`, `Values`: the error type, ordered maps, ASCII lower-casing, `trim`, string `<`, and JavaScript values.
- `Entries`: the records `schema.js` builds.
- `AttributeValidation`, `SchemaBuilder`: `lib/waterline-schema/schema.js`.
- `LegacyAttributes`: `lib/waterline-schema/attributes.js`.
- `Collections`: the record the first-generation passes share, plus their common lookups (`findPrimaryKey`, `findReference`).
- `ForeignKeys`: `lib/waterline-schema/foreignKeys.js`.
- `JunctionNames`, `JoinBuild`, `JoinTables`: `lib/waterline-schema/joinTables.js`.
- `JoinTableSchema`: `lib/waterline-schema/helpers/build-join-table-schema.js`.
- `ThroughTable`: `lib/waterline-schema/helpers/flag-through-table.js`.
- `References`: `lib/waterline-schema/references.js`.

Two behaviours of the code that a reader might not expect, both modelled as written:

- `references.js` line 56 sets `on` of a `through` attribute to `<attribute>_<reference>`, while `test/hasManyThrough.js` line 90 expects the bare `'bar_id'`; the model follows line 56 (`References.AddKeyThrough`).
- The references pass is not idempotent: an attribute it re-points at a `through` model is re-pointed at the target on a second run. `References.ReferencesIdempotent` proves idempotence for models without `through` attributes, and `References.ThroughRerun` shows the second run changing such an attribute.

## Model

| member | source | states |
|---|---|---|
| AttributeValidation.FirstUnrecognized | lib/waterline-schema/schema.js:167-171 | No property is reported exactly when every property of the attribute is whitelisted; a reported property is one of the attribute's own and is not whitelisted |
| AttributeValidation.WithRequired | lib/waterline-schema/schema.js:156-159 | A missing `required` becomes `false`; an existing one and every other property are kept |
| AttributeValidation.CheckDefault | lib/waterline-schema/schema.js:194-211 | A `defaultsTo` passes exactly when it is not `null`, the attribute is not truthily `required`, and the value fits the type; each failure is one of the three default errors |
| AttributeValidation.ValidateAttribute | lib/waterline-schema/schema.js:124-211 | A function attribute, and only one, fails with the function error; every failure names the attribute |
| AttributeValidation.ValidateAttributeValue | lib/waterline-schema/schema.js:152-188 | An accepted attribute is kept with a boolean `required` (its own, else `false`), without `columnName`, and with every other property unchanged |
| AttributeValidation.WhitelistWithRequired | lib/waterline-schema/schema.js:156-171 | Adding `required` never makes the whitelist check fail: the copy passes exactly when the original's properties are all whitelisted |
| AttributeValidation.CheckDefaultOnCopy | lib/waterline-schema/schema.js:185-211 | The default checks on the stripped copy accept exactly when the original's `defaultsTo` is non-null, not combined with `required: true`, and fits the type |
| AttributeValidation.ValidateShapedAttributeOkIff | lib/waterline-schema/schema.js:152-211 | Once the shape checks pass, the remaining ordered checks accept exactly the attributes meeting every requirement |
| AttributeValidation.ValidateAttributeOkIff | lib/waterline-schema/schema.js:124-211 | The ordered checks accept an attribute exactly when it meets every requirement, stated independently of check order |
| AttributeValidation.ValidateAll | lib/waterline-schema/schema.js:117-213 | The loop succeeds exactly when every attribute does; the result has the same names, in order, each with its validated value |
| AttributeValidation.ValidateAllOkIff | lib/waterline-schema/schema.js:117-213 | All attributes are accepted exactly when each meets every requirement |
| AttributeValidation.WithColumnName | lib/waterline-schema/schema.js:220-224 | An object attribute with neither `columnName` nor `collection` gains the trimmed name with its first space made `_`; every other property, and every other attribute, is left alone |
| AttributeValidation.WithColumnNames | lib/waterline-schema/schema.js:220-225 | The schema copy keeps the attribute names in order, and treats each attribute as `WithColumnName` does |
| Strings.Trim | lib/waterline-schema/schema.js:222 | The trimmed name is the infix left after dropping only leading and trailing white space; it neither starts nor ends with white space |
| Strings.ReplaceFirst | lib/waterline-schema/schema.js:222 | `replace(' ', '_')` changes only the first occurrence and keeps the length |
| SchemaBuilder.BuildEntry | lib/waterline-schema/schema.js:39-106 | A model lacking both `identity` and `tableName` fails with the identity error and no other does; top-level `autoCreatedAt`/`autoUpdatedAt` are rejected; an accepted entry is keyed by the lower-cased identity and carries the primary key, `tableName`, `datastore` and `meta` fallbacks and `hasSchema` as the model gives it; its attributes are the validated `_.merge({}, attributes)` copy (no `undefined` property) and its schema that copy with column names |
| SchemaBuilder.BuildEntryAttributeNames | lib/waterline-schema/schema.js:100-104 | The entry's attributes and schema own exactly the attribute names the model gives a value other than `undefined` |
| SchemaBuilder.BuildEntries | lib/waterline-schema/schema.js:33-94 | Each definition is built on its own: entry `i` depends only on definition `i` |
| SchemaBuilder.BuildEntryOkIff | lib/waterline-schema/schema.js:39-84 | A definition is accepted exactly when it has an identity, no legacy timestamp flags, a string primary key naming an attribute without `defaultsTo`, and only valid attributes once `_.merge({}, attributes)` has dropped its `undefined` values |
| Values.CopyKeys | lib/waterline-schema/schema.js:100 | The copy owns exactly the keys the attributes give a value other than `undefined` |
| Values.CopyLookup | lib/waterline-schema/schema.js:100 | Each such key reads the copy of its value; an `undefined` one is absent |
| Values.CopyIdempotent | lib/waterline-schema/schema.js:100 | Copying a copy changes nothing |
| SchemaBuilder.BuildSchema | lib/waterline-schema/schema.js:23-94 | The build succeeds exactly when every definition does; its keys are exactly those the definitions produce |
| SchemaBuilder.BuildSchemaOkIff | lib/waterline-schema/schema.js:23-106 | The whole build succeeds exactly when every definition meets every requirement |
| SchemaBuilder.BuildSchemaKeys | lib/waterline-schema/schema.js:94 | Every model is stored, and every key is lower-case |
| SchemaBuilder.BuildSchemaLastWins | lib/waterline-schema/schema.js:94 | A model's entry is what its key finds, unless a later model has the same lower-cased identity |
| LegacyAttributes.NormalizeIdentity | lib/waterline-schema/attributes.js:111-120 | A missing `identity` becomes the lower-cased `tableName`; without either the model is rejected, and a non-string `tableName` is a TypeError; nothing else changes |
| LegacyAttributes.Default | lib/waterline-schema/attributes.js:83-102 | An option is set to the default only when the model does not own it |
| LegacyAttributes.DefaultsFrom | lib/waterline-schema/attributes.js:83-102 | After the defaults, an option reads the model's own value if it has one, else the default |
| LegacyAttributes.SetDefaults | lib/waterline-schema/attributes.js:83-102 | The options `setDefaults` fills are present afterwards, and a value the model set is never overwritten |
| LegacyAttributes.OptionDefaultValues | lib/waterline-schema/attributes.js:85-97 | The defaults: connection `''`, attributes `{}`, and `autoPK`, `autoCreatedAt`, `autoUpdatedAt` all `true` |
| LegacyAttributes.PkFormat | lib/waterline-schema/attributes.js:154-161 | The adapter lookup throws exactly when the connections map is `null`/`undefined`, or the model's connection entry or that entry's `_adapter` is; a format is found only from that connection's adapter |
| LegacyAttributes.AutoAttributes | lib/waterline-schema/attributes.js:133-177 | Auto attributes fail only on unreadable attributes or adapters; on success they add `id` and the timestamps as the flags ask and keep everything else |
| LegacyAttributes.AddId | lib/waterline-schema/attributes.js:137-161 | `id` is added exactly when no attribute declares a primary key, `autoPK` is on and `id` is not taken; it is typed after the adapter's format; nothing else changes |
| LegacyAttributes.AddTimestamp | lib/waterline-schema/attributes.js:164-176 | A timestamp attribute is set only when its flag is on and the current value is falsy |
| LegacyAttributes.AddTimestamps | lib/waterline-schema/attributes.js:164-176 | `createdAt` and `updatedAt` follow their flags; every other attribute is unchanged and none disappears |
| LegacyAttributes.AutoAttributesAdds | lib/waterline-schema/attributes.js:133-177 | The new attribute map holds `id` exactly when it should be added, and each timestamp when its flag asks for it |
| LegacyAttributes.StripFunctions | lib/waterline-schema/attributes.js:186-190 | Exactly the non-function attributes remain |
| LegacyAttributes.StripProperty | lib/waterline-schema/attributes.js:212-217 | An object attribute keeps exactly its reserved-word properties; anything else is left alone |
| LegacyAttributes.StripProperties | lib/waterline-schema/attributes.js:199-203 | Every attribute is stripped in place; the names and their order are kept |
| LegacyAttributes.StripPropertyIdempotent | lib/waterline-schema/attributes.js:212-217 | Stripping twice strips nothing more |
| LegacyAttributes.ValidateNames | lib/waterline-schema/attributes.js:226-236 | The names pass exactly when none contains `.`; a rejected name is one of the attributes and contains `.` |
| LegacyAttributes.Prepare | lib/waterline-schema/attributes.js:83-120 | Identity normalisation then defaults: the identity error exactly when both `identity` and `tableName` are missing; `tableName` kept; connection defaulted to `''` |
| LegacyAttributes.Clean | lib/waterline-schema/attributes.js:41-43 | The sweep fails only on a dotted name among the non-function attributes; on success it holds the stripped non-function attributes |
| LegacyAttributes.CleanIsThePasses | lib/waterline-schema/attributes.js:41-43 | The one sweep equals `validatePropertyNames(stripProperties(stripFunctions(attrs)))` |
| LegacyAttributes.CleanLookup | lib/waterline-schema/attributes.js:41-43 | A kept attribute survives the sweep, stripped |
| LegacyAttributes.NormalizeModel | lib/waterline-schema/attributes.js:37-50 | The stored record is keyed by its own identity |
| LegacyAttributes.NormalizeModelMissingIdentity | lib/waterline-schema/attributes.js:111-120 | Only a definition with neither `identity` nor `tableName` fails for a missing identity |
| LegacyAttributes.NormalizeModelRecord | lib/waterline-schema/attributes.js:45-50 | The record holds the given or derived identity, `tableName` falling back to the identity, the connection, and attributes with no function and no dotted name |
| LegacyAttributes.NormalizeModelAttributes | lib/waterline-schema/attributes.js:37-43 | The stored attributes are the cleaned result of the auto-attribute step |
| LegacyAttributes.NormalizeAllFrom | lib/waterline-schema/attributes.js:36-51 | The loop as written keeps every stored key and stores each record under its identity |
| LegacyAttributes.NormalizeAll | lib/waterline-schema/attributes.js:28-54 | The pass as written stores each record under its own identity |
| LegacyAttributes.NormalizeAllTwo | lib/waterline-schema/attributes.js:36-50 | As written, with two models the second is normalised against the first model's connection |
| LegacyAttributes.PkFormatLostAfterFirstModel | lib/waterline-schema/attributes.js:37-38 | As written, the second of two models on an adapter declaring `pkFormat: 'string'` gets an `integer` `id` |
| LegacyAttributes.ExampleMeetsTheFinding | lib/waterline-schema/attributes.js:37-38 | Two concrete models `a`, `b` on connection `db` whose adapter declares `pkFormat: 'string'` meet the conditions of the lost-format result |
| LegacyAttributes.NormalizeAllFixedFrom | lib/waterline-schema/attributes.js:36-51 | The corrected loop keeps every stored key and stores each record under its identity |
| LegacyAttributes.NormalizeAllFixed | lib/waterline-schema/attributes.js:28-54 | The corrected pass stores each record under its own identity |
| LegacyAttributes.NormalizeAllFixedTwo | lib/waterline-schema/attributes.js:36-50 | Corrected, both of two models are normalised against the connections map |
| LegacyAttributes.FixedIsIndependent | lib/waterline-schema/attributes.js:36-51 | The corrected pass stores exactly what normalising each model on its own would produce, last key winning |
| LegacyAttributes.PkFormatKeptWhenFixed | lib/waterline-schema/attributes.js:154-161 | Corrected, the second model's `id` takes the adapter's `string` format |
| LegacyAttributes.PlainPrepared | lib/waterline-schema/attributes.js:83-120 | A model with a string identity and connection keeps both and starts from no attributes |
| LegacyAttributes.AutoAttributesOfNone | lib/waterline-schema/attributes.js:133-177 | Starting from no attributes, only `id`, `createdAt` and `updatedAt` can appear |
| LegacyAttributes.PlainModelOk | lib/waterline-schema/attributes.js:37-50 | A plain model is accepted whenever its adapter lookup is, and keeps its identity and connection |
| LegacyAttributes.PlainModelId | lib/waterline-schema/attributes.js:146-161 | A plain model's `id` is typed after the adapter found for its connection in the map it was given |
| LegacyAttributes.StripIdAttribute | lib/waterline-schema/attributes.js:212-217 | The automatic `id` survives stripping unchanged |
| Collections.OwnProp | lib/waterline-schema/foreignKeys.js:82-84 | `hasOwnProperty` throws exactly on `null`/`undefined`, and otherwise tests own properties |
| Collections.LowerOf | lib/waterline-schema/foreignKeys.js:47 | `toLowerCase` succeeds exactly on strings and gives a lower-case string |
| Collections.PrimaryKeyIndex | lib/waterline-schema/foreignKeys.js:73-96 | The scan fails exactly when some attribute is `null`/`undefined`; otherwise it finds the last attribute owning `primaryKey`, or reports that none does |
| Collections.FindPrimaryKey | lib/waterline-schema/joinTables.js:243-266 | A missing collection gives nothing; a found key is the last attribute owning `primaryKey`; failures are the missing-key error or a TypeError |
| Collections.FindPrimaryKeyMissing | lib/waterline-schema/foreignKeys.js:90-93 | The missing-key error is raised exactly when no attribute owns `primaryKey` and none is `null`/`undefined` |
| Collections.PrimaryKeyIndexEntry | lib/waterline-schema/foreignKeys.js:73-96 | The back-to-front index scan and the front-to-back entry scan find the same attribute and fail alike |
| Collections.FindPrimaryKeyEntry | lib/waterline-schema/foreignKeys.js:73-96 | `findPrimaryKey` on a collection in the map depends only on the entry scan of its attributes |
| Collections.ReferenceIndex | lib/waterline-schema/joinTables.js:347-361 | The first foreign key to the parent is found, with no match and no `null` before it; none found exactly when there is none; a failure is a TypeError on a `null` met first |
| Collections.FindReferenceIn | lib/waterline-schema/references.js:87-96 | The reference is the column (or name) of the first foreign key to the parent; none exactly when no attribute is one |
| Collections.FindReferenceFirst | lib/waterline-schema/joinTables.js:347-361 | Given the first foreign key to the parent, the lookup returns its column name |
| Collections.SetAttribute | lib/waterline-schema/foreignKeys.js:59-60 | Assigning one attribute changes only that attribute of that collection and keeps the names of an existing one |
| Collections.SetAttributeSame | lib/waterline-schema/references.js:62-67 | Assigning an attribute the value it already holds changes nothing |
| ForeignKeys.BuildColumnName | lib/waterline-schema/foreignKeys.js:110-113 | The column is the lower-cased own `columnName` if there is one, else the lower-cased attribute name; a non-string `columnName` is a TypeError |
| ForeignKeys.Reassign | lib/waterline-schema/foreignKeys.js:59-60 | Delete then re-add: the attribute reads the descriptor and moves to the end of the key order; the others read as before |
| ForeignKeys.DescriptorFor | lib/waterline-schema/foreignKeys.js:45-56 | A built descriptor no longer names a model |
| ForeignKeys.ReplaceKey | lib/waterline-schema/foreignKeys.js:42-63 | One iteration touches only attribute `key` of one collection; it leaves a settled attribute alone and settles the one it replaces |
| ForeignKeys.ReplaceKeyDescriptor | lib/waterline-schema/foreignKeys.js:45-60 | A replaced attribute becomes the descriptor built from the target's primary key, placed last |
| ForeignKeys.ReplaceKeyTargetErrors | lib/waterline-schema/foreignKeys.js:45-96 | An association to a model that is not in the map, or one without a primary key, aborts the pass |
| ForeignKeys.ReplaceKeys | lib/waterline-schema/foreignKeys.js:42-63 | The loop changes one collection and keeps its set of attribute names |
| ForeignKeys.ForeignKeysPass | lib/waterline-schema/foreignKeys.js:24-33 | The pass keeps the collection names |
| ForeignKeys.ForeignKeysFrom | lib/waterline-schema/foreignKeys.js:24-33 | The pass over some collections keeps the collection names |
| ForeignKeys.ReplaceKeysSettled | lib/waterline-schema/foreignKeys.js:42-63 | Settled attributes make the loop a no-op |
| ForeignKeys.ReplaceKeysSettles | lib/waterline-schema/foreignKeys.js:42-63 | After the loop every visited attribute is settled, and settled ones are kept |
| ForeignKeys.ReplaceKeysDescribes | lib/waterline-schema/foreignKeys.js:42-63 | Each attribute the loop replaces becomes the descriptor of its former definition |
| ForeignKeys.ForeignKeysFromFrame | lib/waterline-schema/foreignKeys.js:24-33 | Over some collections, the pass keeps every collection's attribute names and leaves unvisited ones alone |
| ForeignKeys.ForeignKeysFromSettles | lib/waterline-schema/foreignKeys.js:24-33 | Every visited collection ends with all its attributes settled |
| ForeignKeys.ForeignKeysPassSettles | lib/waterline-schema/foreignKeys.js:24-63 | After the pass no attribute names a model and none is `null`/`undefined` |
| ForeignKeys.ForeignKeysPassKeepsPlain | lib/waterline-schema/foreignKeys.js:47 | An attribute that names no model comes out of the pass unchanged |
| ForeignKeys.ForeignKeysFromSettledNoop | lib/waterline-schema/foreignKeys.js:24-63 | On collections that are all settled the pass changes nothing |
| ForeignKeys.ForeignKeysIdempotent | lib/waterline-schema/foreignKeys.js:24-63 | Running the pass on its own output changes nothing |
| ForeignKeys.DescriptorSettled | lib/waterline-schema/foreignKeys.js:50-56 | A descriptor is never replaced again |
| ForeignKeys.DescriptorNamesNoModel | lib/waterline-schema/foreignKeys.js:50-56 | A descriptor owns no `model` property |
| ForeignKeys.FirstVisitDescribes | lib/waterline-schema/foreignKeys.js:42-63 | A collection's own visit turns each association into its descriptor |
| ForeignKeys.ForeignKeysFromDescribes | lib/waterline-schema/foreignKeys.js:24-63 | Over a list of collections, each association of a visited collection ends as its descriptor |
| ForeignKeys.ForeignKeysPassDescribes | lib/waterline-schema/foreignKeys.js:24-63 | Every attribute that named a model comes out of the pass as the descriptor of its former definition |
| ForeignKeys.ReassignKeepsKey | lib/waterline-schema/foreignKeys.js:59-60 | Replacing a non-key attribute by a descriptor keeps the names distinct and the primary-key scan's answer |
| ForeignKeys.ReplaceKeyKeepsKeys | lib/waterline-schema/foreignKeys.js:42-63 | When no primary-key attribute names a model, one iteration keeps that so and changes no collection's primary key |
| ForeignKeys.ReplaceKeysKeepsKeys | lib/waterline-schema/foreignKeys.js:42-63 | The same for the loop over a collection's attributes |
| ForeignKeys.ForeignKeysFromKeepsKeys | lib/waterline-schema/foreignKeys.js:24-33 | The same for the pass over some collections |
| ForeignKeys.ReplaceKeysDescribesIn | lib/waterline-schema/foreignKeys.js:42-63 | With such primary keys, each replaced attribute is the descriptor typed and keyed after its model's primary key in the collections the loop started from |
| ForeignKeys.FirstVisitDescribesIn | lib/waterline-schema/foreignKeys.js:42-63 | A collection's own visit turns each association into that descriptor, which is settled |
| ForeignKeys.ForeignKeysFromDescribesIn | lib/waterline-schema/foreignKeys.js:24-63 | Over a list of collections, each association of a visited collection ends as the descriptor built against the input |
| ForeignKeys.ForeignKeysPassDescribesInput | lib/waterline-schema/foreignKeys.js:24-96 | When no primary-key attribute names a model, the pass keeps every primary key, and each association comes out as the descriptor with its model's primary key in the input as `type` source and `on` |
| JunctionNames.JunctionNameOrder | lib/waterline-schema/joinTables.js:170-180 | The junction name joins the two sides' `<collection>_<attribute>` names with `__`, the side with the smaller collection first |
| JunctionNames.JunctionName | lib/waterline-schema/joinTables.js:170-180 | The name is the two sides' pair names joined by `__`, in one order or the other |
| JunctionNames.JunctionNameSymmetric | lib/waterline-schema/joinTables.js:170-180 | Sides on different collections give the same name whichever is called first |
| JunctionNames.JunctionNameSameCollection | lib/waterline-schema/helpers/build-join-table-schema.js:24-30 | Sides on the same collection put side two first |
| JoinBuild.CollectionAttributes | lib/waterline-schema/joinTables.js:115-124 | Exactly the attributes owning `collection` are kept; the scan throws exactly on a `null`/`undefined` attribute |
| JoinBuild.ForeignKeyObject | lib/waterline-schema/joinTables.js:196-204 | The junction attribute carries the given column name and reference, and is flagged `foreignKey` |
| JoinBuild.BuildForeignKey | lib/waterline-schema/joinTables.js:191-205 | The foreign key fails exactly when the side's collection is missing or its primary-key lookup fails; a built one is an object named after the side's pair name in lower case, referencing its lower-cased collection |
| JoinBuild.BuildForeignKeyTarget | lib/waterline-schema/joinTables.js:191-205 | A junction foreign key names the target's lower-cased collection, references it `on` its primary key's column, and is typed after that key |
| JoinBuild.BuildForeignKeyErrors | lib/waterline-schema/joinTables.js:191-266 | The foreign key fails for a missing collection and for one without a primary key |
| JoinBuild.BuildTable | lib/waterline-schema/joinTables.js:134-160 | A built junction is stored under its own lower-case identity and joins two collections |
| JoinBuild.JunctionAttributesKeys | lib/waterline-schema/joinTables.js:148-157 | A junction's attributes are `id` and one foreign key per side, each under its pair name |
| JoinBuild.BuildTableShape | lib/waterline-schema/joinTables.js:134-160 | A built junction is flagged, named after both sides in lower case, and joins the two collections |
| JoinBuild.BuildTableAttributes | lib/waterline-schema/joinTables.js:148-205 | A built junction carries `id` and a foreign key per side, each pointing at that side's collection |
| JoinBuild.BuildJoin | lib/waterline-schema/joinTables.js:60-101 | Any junction an association builds is well-formed |
| JoinBuild.BuildJoinErrors | lib/waterline-schema/joinTables.js:67-80 | An association without `via` is rejected, as is one whose `via` the target lacks |
| JoinBuild.BuildJoinSkipsForeignKeys | lib/waterline-schema/joinTables.js:83 | An association builds nothing exactly when its `via` is a foreign key of the target |
| JoinBuild.BuildJoinOutcome | lib/waterline-schema/joinTables.js:86-98 | A built junction joins the lower-cased collection with the lower-cased target |
| JoinBuild.BuildJoins | lib/waterline-schema/joinTables.js:52-105 | Every built junction is well-formed, and there is at most one per association |
| JoinBuild.BuildJoinsFor | lib/waterline-schema/joinTables.js:52-105 | Every junction a collection calls for is well-formed |
| JoinBuild.UniqueTableAdds | lib/waterline-schema/joinTables.js:214-233 | A candidate is dropped exactly when its pair is already joined, and is otherwise stored under its identity |
| JoinBuild.UniqueTable | lib/waterline-schema/joinTables.js:214-233 | After one step the candidate's pair is joined by a stored table; the store is either unchanged or gains the candidate under its identity with nothing else changed |
| JoinBuild.UniqueTables | lib/waterline-schema/joinTables.js:214-233 | Deduplication never drops a stored table name, and every new name is a candidate's identity |
| JoinBuild.StoredIdentityCovers | lib/waterline-schema/joinTables.js:214-233 | A table already stored under a candidate's identity joins the candidate's pair |
| JoinBuild.UniqueTableStep | lib/waterline-schema/joinTables.js:214-233 | One step keeps the store drawn from the candidates, and joins the candidate's pair without losing any joined pair |
| JoinBuild.UniqueTablesCovers | lib/waterline-schema/joinTables.js:214-233 | Afterwards every candidate's pair is joined by a stored table, and no joined pair is lost |
| JoinBuild.UniqueTablesKeepsStore | lib/waterline-schema/joinTables.js:214-233 | Deduplication keeps the store free of repeated names and holds only flagged junctions |
| JoinTables.FlagJunction | lib/waterline-schema/joinTables.js:324 | Only the linked collection changes, gaining `junctionTable: true`; every attribute map is kept |
| JoinTables.SetOnPointsThrough | lib/waterline-schema/joinTables.js:327-334 | A re-pointed attribute names the linked collection as both `collection` and `references`, has `on` set and owns no `through` |
| JoinTables.MarkLinked | lib/waterline-schema/joinTables.js:324-334 | Marking keeps the collection names, and the attribute names when the attribute exists |
| JoinTables.MarkThrough | lib/waterline-schema/joinTables.js:317-336 | One iteration keeps the collection names and every collection's attribute names |
| JoinTables.MarkLinkedFrame | lib/waterline-schema/joinTables.js:324-334 | Marking flags the target and re-points the attribute, and changes nothing else |
| JoinTables.MarkLinkedPoints | lib/waterline-schema/joinTables.js:324-334 | When the target is another collection, the attribute ends up pointing at it with `on` its reference back |
| JoinTables.MarkThroughOutcome | lib/waterline-schema/joinTables.js:320-334 | An attribute without `through` is left alone; one with `through` flags its lower-cased target and points at it |
| JoinTables.MarkThroughUnknown | lib/waterline-schema/joinTables.js:323-324 | A `through` collection that does not exist is an error |
| JoinTables.MarkLinkedNoReference | lib/waterline-schema/joinTables.js:331-361 | A `through` collection with no foreign key back is an error |
| JoinTables.MarkCustomJoinTables | lib/waterline-schema/joinTables.js:317-336 | The pass keeps the collection names and every collection's attribute names |
| JoinTables.JoinTableIndex | lib/waterline-schema/joinTables.js:372-387 | The LAST stored table joining the two collections is found; none exactly when no table does |
| JoinTables.LinkAttributeAt | lib/waterline-schema/joinTables.js:289-305 | Linking changes only the attributes of one collection; it fails exactly when the attribute is `null`/`undefined`, or its junction has nothing under the looked-up name |
| JoinTables.LinkAttribute | lib/waterline-schema/joinTables.js:289-305 | The lookup as written changes only the attributes of one collection |
| JoinTables.LinkAttributeFixed | lib/waterline-schema/joinTables.js:289-305 | The lower-cased lookup changes only the attributes of one collection |
| JoinTables.LinkAttributeOutcome | lib/waterline-schema/joinTables.js:291-303 | A non-plural attribute, or one with no junction, is left alone; a linked one points at the last junction joining its collections |
| JoinTables.LinkAttributeRelinks | lib/waterline-schema/joinTables.js:291-303 | One iteration stores under an owned `key` what `Relinked` (the loop-free definition: re-pointed at the last junction joining the two collections, or kept) gives, and changes no other attribute or name |
| JoinTables.JunctionAttributesKeysAmong | lib/waterline-schema/joinTables.js:148-157 | Every junction attribute name is `id` or one of the two pair names |
| JoinTables.BuildJoinKeysLower | lib/waterline-schema/joinTables.js:86-157 | Every attribute name of a built junction is lower-case |
| JoinTables.JunctionKeysLower | lib/waterline-schema/joinTables.js:148-157 | Sides with lower-case names give lower-case attribute names |
| JoinTables.PairNameLower | lib/waterline-schema/joinTables.js:156-157 | Lower-case sides give a lower-case pair name |
| JoinTables.LinkAttributeMissesMixedCase | lib/waterline-schema/joinTables.js:302 | As written, an association whose name has an upper-case letter fails with a TypeError on `columnName` when linked |
| JoinTables.LinkAttributeAtLinks | lib/waterline-schema/joinTables.js:299-303 | An association whose junction has an object under the looked-up name is linked to it |
| JoinTables.JunctionColumn | lib/waterline-schema/joinTables.js:156-197 | The foreign key under a side's name has that name as its column |
| JoinTables.LinkAttributeFixedFindsColumn | lib/waterline-schema/joinTables.js:299-303 | With the lower-cased lookup, an association is linked to a junction built for it, `on` its own column |
| JoinTables.LinkAttributes | lib/waterline-schema/joinTables.js:289-305 | `updateAttribute`, with the junction key looked up as written or lower-cased, changes only one collection's attributes |
| JoinTables.LinkAttributesRelinks | lib/waterline-schema/joinTables.js:289-305 | Over distinct names, every visited attribute ends as `Relinked` computed on its value before the loop; the others and the attribute names are kept |
| JoinTables.LinkAll | lib/waterline-schema/joinTables.js:274-279 | Linking every collection keeps the collection names |
| JoinTables.LinkAllRelinks | lib/waterline-schema/joinTables.js:274-279 | Over distinct collections, each visited collection has every attribute `Relinked` and its other fields kept; an unvisited one is untouched |
| JoinTables.BuildStep | lib/waterline-schema/joinTables.js:30-37 | One iteration keeps the collection and attribute names and the store a store of junctions |
| JoinTables.BuildAll | lib/waterline-schema/joinTables.js:30-37 | The constructor's loop keeps the collection and attribute names and a store of junctions |
| JoinTables.JoinTablesPassAddsJunctions | lib/waterline-schema/joinTables.js:24-42 | With either lookup, the pass keeps every collection and adds only flagged junctions with lower-case names |
| JoinTables.JoinTablesPassWith | lib/waterline-schema/joinTables.js:24-42 | The pass never drops an input collection |
| JoinTables.JoinTablesPass | lib/waterline-schema/joinTables.js:24-42 | The pass as written never drops an input collection |
| JoinTables.JoinTablesPassFixed | lib/waterline-schema/joinTables.js:24-42 | The pass with the lower-cased lookup never drops an input collection |
| JoinTables.JoinTablesPassRelinks | lib/waterline-schema/joinTables.js:24-42 | On collections without repeated names, the built collections keep the input's names; a collection no junction replaces comes out with every attribute `Relinked` against the final junction store; a junction's name reads the junction |
| JoinTableSchema.MergeStepIsLocal | lib/waterline-schema/helpers/build-join-table-schema.js:57 | Merging one source entry adds that entry's key unless its value is `undefined`, leaves every other key alone, and stores a value that depends only on what the key held before |
| JoinTableSchema.FoldOwned | lib/waterline-schema/helpers/build-join-table-schema.js:57 | With distinct source keys, what a key ends up holding after all entries is what its own entry makes of the destination's original value |
| JoinTableSchema.MergeFromKeys | lib/waterline-schema/helpers/build-join-table-schema.js:57 | The merge owns exactly the destination's keys plus the keys the source gives a value other than `undefined` |
| JoinTableSchema.MergeFromKeeps | lib/waterline-schema/helpers/build-join-table-schema.js:57 | A key the source lacks keeps the destination's value |
| JoinTableSchema.MergeFromOwned | lib/waterline-schema/helpers/build-join-table-schema.js:57 | A key the source owns holds the source's value, merged into the destination's value when the source's is an object (into `{}` when that is no object); an `undefined` source value keeps the destination's |
| JoinTableSchema.MergePropsOwned | lib/waterline-schema/helpers/build-join-table-schema.js:57 | The same, for a key looked up in the source |
| JoinTableSchema.MergeMetaPrecedence | lib/waterline-schema/helpers/build-join-table-schema.js:57 | The merged meta owns exactly the keys either side defines (a value other than `undefined`); a non-object value of the dominant side wins; a key the dominant side does not define keeps the other side's non-object value |
| JoinTableSchema.MergeIntoEmptyCopies | lib/waterline-schema/helpers/build-join-table-schema.js:57 | Merging into `{}` owns the same keys as the deep copy that drops `undefined`, and agrees with it on every non-object value |
| JoinTableSchema.BuildForeignKey | lib/waterline-schema/helpers/build-join-table-schema.js:87-114 | Reading the primary key's type fails exactly when that attribute is `null`/`undefined` |
| JoinTableSchema.BuildJoinTableSchemaErrors | lib/waterline-schema/helpers/build-join-table-schema.js:33-88 | The build fails exactly when a side is missing from the schema or lacks its primary-key attribute |
| JoinTableSchema.BuildJoinTableSchema | lib/waterline-schema/helpers/build-join-table-schema.js:24-117 | A built record needs both sides in the schema, is flagged as a junction, and has `id` as its primary key and among its attributes |
| JoinTableSchema.BuildJoinTableSchemaShape | lib/waterline-schema/helpers/build-join-table-schema.js:24-117 | The record is named after both sides, flagged as a junction, joins both tables, and lists the joined attributes in order |
| JoinTableSchema.PairNameNotId | lib/waterline-schema/helpers/build-join-table-schema.js:91-114 | A pair name is never `id`, so the foreign keys never overwrite the junction's primary key |
| JoinTableSchema.BuildJoinTableSchemaDominance | lib/waterline-schema/helpers/build-join-table-schema.js:41-70 | Datastore and winning meta come from side two exactly when its attribute owns `dominant`, else from side one |
| JoinTableSchema.BuildJoinTableSchemaColumns | lib/waterline-schema/helpers/build-join-table-schema.js:72-114 | Both columns sit under `<collection>_<attribute>` next to `id`; the second wins when the names clash |
| JoinTableSchema.ForeignKeyColumnFields | lib/waterline-schema/helpers/build-join-table-schema.js:91-114 | Each column holds its own name, the referenced primary key's type and column, and its side's `via` |
| ThroughTable.SetSchemaAttribute | lib/waterline-schema/helpers/flag-through-table.js:85-92 | Assigning one schema attribute changes only that model |
| ThroughTable.ThroughKey | lib/waterline-schema/helpers/flag-through-table.js:39-45 | The found key's attribute names the model as its reference; nothing found exactly when no key's does; a failure is a TypeError |
| ThroughTable.ThroughReferenceSelects | lib/waterline-schema/helpers/flag-through-table.js:52-78 | The reference is truthy exactly when `via` names a foreign key to the model's table, and then it is that attribute's column |
| ThroughTable.ThroughReference | lib/waterline-schema/helpers/flag-through-table.js:55-78 | The reference is the initial one or the `columnName` of a scanned attribute; once truthy it is kept |
| ThroughTable.MarkThroughModel | lib/waterline-schema/helpers/flag-through-table.js:31-39 | The through model is flagged `hasSchema` and records the path; its schema and other paths are kept |
| ThroughTable.Retarget | lib/waterline-schema/helpers/flag-through-table.js:48-49 | An object attribute gains `references` and `referenceIdentity`; every other property is kept |
| ThroughTable.SetReference | lib/waterline-schema/helpers/flag-through-table.js:85-89 | An object attribute gets `on` and `onKey` set to the reference and loses `through`; every other property is kept |
| ThroughTable.Retargeted | lib/waterline-schema/helpers/flag-through-table.js:30-49 | Marking and re-pointing keep the model names |
| ThroughTable.FlagAttribute | lib/waterline-schema/helpers/flag-through-table.js:20-94 | An attribute without `through` is left alone; one call keeps the model names |
| ThroughTable.RetargetedSees | lib/waterline-schema/helpers/flag-through-table.js:48-78 | The reference scan sees the through model as re-pointed, and the other attributes as they were |
| ThroughTable.FlagAttributeResolves | lib/waterline-schema/helpers/flag-through-table.js:48-92 | A resolved attribute references the through model's table, drops `through`, and has `on`/`onKey` set to the reference; the others are untouched |
| ThroughTable.FlagAttributeMarksThroughModel | lib/waterline-schema/helpers/flag-through-table.js:30-45 | The through model is flagged `hasSchema` and records the attribute's path; other models are untouched |
| ThroughTable.FlagAttributeNotFound | lib/waterline-schema/helpers/flag-through-table.js:80-82 | Once the through model exists and scans cleanly, the call fails exactly when no reference is found |
| ThroughTable.FlagAttributeFrame | lib/waterline-schema/helpers/flag-through-table.js:85-92 | One call changes only the visited attribute and keeps the model's attribute names |
| ThroughTable.FlagAll | lib/waterline-schema/helpers/flag-through-table.js:20-94 | The loop keeps the model names |
| ThroughTable.FlagThroughTable | lib/waterline-schema/helpers/flag-through-table.js:20-21 | A model missing from the schema has no attributes to read, a TypeError |
| ThroughTable.FlagAllFrame | lib/waterline-schema/helpers/flag-through-table.js:20-94 | After the loop no visited attribute owns `through`, and attributes that did not own one are unchanged |
| ThroughTable.FlagThroughTableFrame | lib/waterline-schema/helpers/flag-through-table.js:20-94 | After the flagger no attribute of the model owns `through`; attributes without one are unchanged |
| References.FindReference | lib/waterline-schema/references.js:80-97 | The lookup fails with the unknown-collection error exactly when the collection is missing |
| References.LowerTarget | lib/waterline-schema/references.js:48 | Only the attribute's `collection` changes, to the lower-cased target |
| References.Annotate | lib/waterline-schema/references.js:51-67 | Annotating keeps the collection names |
| References.AddKey | lib/waterline-schema/references.js:41-69 | One iteration keeps the collection names |
| References.ThroughAnnotationKeeps | lib/waterline-schema/references.js:51-59 | The `through` annotation keeps the attribute's `collection`, `foreignKey` and object shape |
| References.PlainAnnotationKeeps | lib/waterline-schema/references.js:62-67 | The plain annotation keeps the attribute's `collection`, `foreignKey` and object shape |
| References.AnnotateChanges | lib/waterline-schema/references.js:51-67 | Annotating changes only the visited attribute, within what the pass may change |
| References.AddKeyChanges | lib/waterline-schema/references.js:41-69 | One iteration touches only attribute `key`, only if it owns `collection`, lower-casing its target |
| References.AddKeyPlain | lib/waterline-schema/references.js:46-97 | A plain attribute's lower-cased target must exist; the first foreign key back decides `references` and `on`; a falsy reference skips the attribute and a non-string one is a TypeError |
| References.AddKeyThrough | lib/waterline-schema/references.js:46-97 | A `through` attribute's model must exist; the first foreign key back gives `on` as `<attribute>_<reference>`, and `references` becomes the through model |
| References.AddKeys | lib/waterline-schema/references.js:41-69 | `addKeys` keeps the collection names |
| References.ReferencesPass | lib/waterline-schema/references.js:23-32 | The pass keeps the collection names |
| References.ReferencesFrom | lib/waterline-schema/references.js:23-32 | The pass over some collections keeps the collection names |
| References.EvolvedTrans | lib/waterline-schema/references.js:41-69 | The changes the pass may make compose |
| References.ChangedEvolves | lib/waterline-schema/references.js:41-69 | After any iteration, the state is still an evolution of the input |
| References.AddKeysEvolves | lib/waterline-schema/references.js:41-69 | After `addKeys`, the state is still an evolution of the input |
| References.ReferencesFromEvolves | lib/waterline-schema/references.js:23-32 | After any prefix of the pass, the state is an evolution of the input |
| References.ReferencesPassEvolves | lib/waterline-schema/references.js:23-69 | The pass keeps every collection, its other fields, and its attribute names; only plural attributes change, keeping `foreignKey` |
| References.ReferenceIndexEvolved | lib/waterline-schema/references.js:87-96 | The reference scan gives the same answer on an evolved attribute list |
| References.AttrsEvolved | lib/waterline-schema/references.js:41-69 | With unique names, evolution by name is evolution by position |
| References.FindReferenceStable | lib/waterline-schema/references.js:80-97 | Every lookup the pass makes reads the same at every point of the pass |
| References.AddKeyExpected | lib/waterline-schema/references.js:41-69 | One iteration over an unvisited attribute computes the reference definition `Expected` |
| References.AddKeysExpected | lib/waterline-schema/references.js:41-69 | `addKeys` computes `Expected` for every attribute it visits |
| References.AddKeysUntouched | lib/waterline-schema/references.js:41-69 | An attribute `addKeys` does not visit reads the same afterwards |
| References.ReferencesFromExpected | lib/waterline-schema/references.js:23-69 | Over distinct collections, the pass computes `Expected` for every attribute of every visited collection |
| References.ReferencesPassExpected | lib/waterline-schema/references.js:23-97 | Every attribute comes out of the pass as `Expected` computed on the input: the order of visits does not matter |
| References.PlainAnnotationIdempotent | lib/waterline-schema/references.js:62-67 | Annotating a plain attribute twice is annotating it once |
| References.AddKeySettled | lib/waterline-schema/references.js:41-69 | An attribute already annotated as `Expected` makes its iteration a no-op |
| References.AddKeysSettled | lib/waterline-schema/references.js:41-69 | Settled attributes make `addKeys` a no-op |
| References.ReferencesFromSettled | lib/waterline-schema/references.js:23-69 | Settled collections make the pass a no-op |
| References.ReferencesIdempotent | lib/waterline-schema/references.js:23-97 | Without `through` attributes, running the pass on its own output changes nothing |
| References.ThroughAnnotationShape | lib/waterline-schema/references.js:55-58 | A `through` annotation drops `through`, references the through model, and has `on` `<attribute>_<reference>` |
| References.ThroughRerun | lib/waterline-schema/references.js:51-67 | On a second run, an attribute the first run pointed at a through model is pointed back at its target, so it changes |

## Left out

- JavaScript arrays are not values of the model. The schema builder's "collections must be an array" check (`schema.js` lines 28-30) is implicit in taking a sequence, and an array-valued `connection` (`attributes.js` line 155) is not modelled.
- Non-ASCII letters: `toLowerCase` is modelled on ASCII letters only.
- `rttc.validateStrict` is a parameter `fits`, and the list of valid types is a parameter `validTypes`; neither is part of this model.
- The adapter table is the `connections` value passed in; nothing else about adapters is modelled.
- Error message texts are not modelled: each `throw` becomes a distinct `SchemaError` constructor carrying the names involved.
- JavaScript's enumeration order for integer-like keys (which come first, in numeric order) is not modelled; keys enumerate in insertion order.
- lodash's `_.merge` is modelled on plain objects only (`JoinTableSchema.MergeProps`, recursive at every depth, skipping a source value that is `undefined`; `Values.CopyProps` for `_.merge({}, x)`); its index-wise merge of arrays and its handling of class instances are not, since the value model has neither. A truthy `meta` that is not an object (a string, say) is merged as `{}` (`JoinTableSchema.MetaProps`), where lodash 3 would copy its characters as indexed properties.
- A non-string `through` or `via` used as an object key is a `TypeMismatch`, not JavaScript's string coercion.
- `utils.object.hasOwnProperty`, imported by `attributes.js` line 8, `foreignKeys.js` line 8 and `joinTables.js` line 7, is not defined in `lib/waterline-schema/utils.js`; it is modelled as an own-property test that throws on `null`/`undefined`, as `Object.prototype.hasOwnProperty` does.
- `collections || {}` defaults in the pass constructors are not modelled; a pass takes an explicit map.
- `findPrimaryKey` on a collection with no `attributes` property (`foreignKeys.js` line 75, `joinTables.js` line 245): every modelled collection has an attribute map.
- `lib/waterline-schema.js` (the driver running the passes in order) and `relationsMap.js` are not part of this model.
- References.ReferencesPassExpected: holds under `WellFormed` (no repeated collection or attribute name, which JavaScript objects guarantee) and `NoMixed` (no attribute with both `collection` and `foreignKey`); with a mixed attribute the pass can change the answer of a later lookup.
- References.ReferencesIdempotent: holds only without `through` attributes, which the code re-points on a second run (see `References.ThroughRerun`), and under `WellFormed` and `NoMixed` as above.
- JoinTableSchema.BuildForeignKey: besides the error condition, its contract restates the column it builds; `JoinTableSchema.ForeignKeyColumnFields` states the column's fields.
- `_.has(collection.attributes, collection.primaryKey)` at `schema.js` line 76 is modelled as an own-property test; lodash 3 also follows a dotted path, so a `primaryKey` such as `'id.type'` passes there and is rejected here (`Results.SchemaError.UnknownPrimaryKey`).
- `_.each(attribute, ...)` at `schema.js` line 167 treats an attribute with a numeric `length` property as array-like and then visits indices instead of its properties; the model always visits the attribute's own properties.
- Strings.LexLess: compares strings by code point; JavaScript's `<` compares UTF-16 code units, which differs only above the Basic Multilingual Plane.
- Values.Num: numbers are integers; fractional numbers, `NaN` and the infinities are not modelled, and nothing in the core computes with them.
- LegacyAttributes.AutoAttributes: an `attributes` value that is `null`/`undefined` is always a `TypeMismatch`, whereas `attributes.js` (lines 146-176) throws only when one of `autoPK`, `autoCreatedAt` or `autoUpdatedAt` is on and it reads a property of it; an `attributes` value that is a primitive other than those is a `MalformedAttributes` error, where the source's `for-in` skips it and its writes to the primitive are lost. The model promises nothing for such models.
- LegacyAttributes.NormalizeModel: an identity that is not a string is a `TypeMismatch`, where JavaScript would coerce it to a key string.
- LegacyAttributes.PkFormat: a `connection` that is not a string and a string `connections` indexed by position are not modelled (`Get` of a string yields `undefined`).
- ForeignKeys.ForeignKeysPassDescribesInput: holds under `PrimaryKeysSettled` (distinct names, and no primary-key attribute that itself names a model); such an attribute is replaced by a descriptor before a later collection looks it up, so a later descriptor can take its `type` from the replaced key. `ForeignKeys.ForeignKeysPassDescribes` states the weaker fact that holds without the hypothesis.
- JoinTables.JoinTablesPassRelinks: states the relinking relative to the collections after the junctions are added; a junction whose name equals an existing collection's replaces that collection, and then the junction is what the result holds.
- JoinTables.JoinTablesPass: models `joinTables.js` as written (the junction attribute looked up under the names as given); `JoinTables.JoinTablesPassFixed` is the same pass with the lower-cased lookup the junction was built with (see Findings).

## Findings

| source | as written | input that shows it | evidently intended | confidence | as-written member | corrected member |
|---|---|---|---|---|---|---|
| lib/waterline-schema/attributes.js:37-38 | `var connections` in the loop reassigns the parameter (a `var` redeclaration is the same binding), so after the first model `connections` is that model's `connection` value | two models `{identity: 'a', connection: 'db'}` and `{identity: 'b', connection: 'db'}`, with `connections = {db: {_adapter: {pkFormat: 'string'}}}`: model `b`'s `id` is typed `integer` | every model looks its adapter up in the connections map, so both `id`s are typed `string` | high, not executed | LegacyAttributes.PkFormatLostAfterFirstModel | LegacyAttributes.PkFormatKeptWhenFixed |
| lib/waterline-schema/joinTables.js:302 | the junction attribute is looked up under `collection + '_' + attribute` with the names as given, while the junction stores it under the lower-cased names | collection `foo` with association `myBars` to `bar` via a many-to-many: the lookup `foo_myBars` finds nothing, and reading `.columnName` of `undefined` throws | look the attribute up under the lower-cased names the junction was built with | high, not executed | JoinTables.LinkAttributeMissesMixedCase | JoinTables.LinkAttributeFixedFindsColumn |
