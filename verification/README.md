# minmux in Dafny

A model of the parts of minmux whose correctness is not plain from reading them, and proofs of what those parts are
for. Five subjects, each in modules of its own:

* **Type compilers.** `openapi` hoists a cyclic graph of Go types into `$ref` components (`Hoist`); `clientgen` turns
  that document back into Go declarations (`Names`, `Signature`, `Registry`). `Meaning`, `Sharing`, `Absence`,
  `WireContract`, `WireFit`, `Discriminators`, `ByValue` and `Pipeline` compare what both ends say about the wire:
  `Pipeline.GenerateClient` runs one compiler after the other, over components and operations, and says exactly when
  the client is what the document says, to every depth, and exactly when it then holds all that encoding/json writes on
  the server. `PathTemplates` and `OperationParams` follow route paths and their parameters.
* **Compression.** The deferred-decision response writer as a state machine over its calls (`Compress`), as objects that
  share pooled compressors among interleaved responses (`CompressWriter`), and the negotiation before it (`Negotiate`).
* **Output cache.** The in-memory store as operations on two maps (`Store`) and as the class that updates them
  (`MemoryStore`), its lock sections in any interleaving (`StoreRaces`), the cache key (`CacheKey`), and the middleware
  as whole runs (`OutputCache`), for handlers that read what their routes vary by (`VaryBy`), and as a method over a
  writer, a recorder and the store (`CacheMiddleware`).
* **Stream framing.** Server-sent events (`Sse`, `SseRoundTrip`), JSON text sequences and JSON lines (`JsonStreams`),
  over a common notion of line (`Framing`).
* **OAuth grants.** The device flow of RFC 8628 (`DeviceFlow`, `DeviceStore`) and the authorization code grant of
  section 4.1 of RFC 6749 with PKCE (`AuthCode`).

`Options`, `Schemas` and `Text` hold what several modules share. Strings are byte strings, one character per byte.

Code that changes state is a class whose methods are tied to a function on values; the theorems are about those
functions, over every input or every run. `dafny verify dfyconfig.toml` checks all of it.

## Where the code and its documentation part ways

The model follows the code. Each difference has a lemma that shows it and, where it does not always arise, one that says
exactly when it does (for cache keys, on which requests it cannot).

* `compress/writer.go:78-81` promises `Vary: Accept-Encoding` on every response that could have been compressed. A
  handler that flushes, or returns, before it sets a status or writes leaves it out (`Compress.FlushFirstDropsVary`,
  `Compress.VaryExactly`).
* `clientgen/schema.go:293-295` shares declarations among structurally identical schemas. A signature keeps only the
  discriminator of an inline union, so objects around different unions are shared too (`Meaning.InlineUnionsCollide`).
  A shared declaration fits both objects exactly when the unions at the same places have the same variants
  (`Meaning.SharedExactly`).
* `openapi/openapi.go:856-882` and the `format` tag (`openapi/openapi.go:969-972`) are the client's only guide to what
  encoding/json writes (`clientgen/schema.go:241-271`). Where they are wrong, what the server sends cannot be read: a
  `uint32` becomes an `int32`, which cannot hold 3000000000 (`WireFit.Uint32DoesNotFit`); a `[]byte`, a string on the
  wire, becomes a list of integers (`WireFit.BytesDoNotFit`); a number quoted by `json:",string"` stays a number to the
  client (`WireFit.QuotedDoesNotFit`); and the client of a union asks for a string under the discriminator, whatever the
  variant has there (`WireFit.NumberedTagDoesNotFit`). Which fields, unions and programs are held is exact
  (`WireFit.FieldHeldExactly`, `WireFit.UnionHeldExactly`, `WireFit.HeldExactly`).
* `openapi/openapi.go:916-931` names properties as encoding/json does, but for `json:"-,"`, which stands for the name "-"
  (`WireContract.DashIsDropped`), and for names encoding/json does not take (`WireContract.NameKeptExactly`).
  `openapi/openapi.go:834-854` looks for a union's constants by names of its own, under which even a field kept off the
  wire is found (`Discriminators.HiddenTagIsListed`); where the two part is exact (`Discriminators.TagNameExactly`).
* `openapi/openapi.go:933-959` has `required` mean what is always written. Some of what is always written is not required:
  pointers, structs marked `omitempty`, marks with blanks around them; nothing else, and what is required is always
  written (`WireContract.RequiredIsWritten`).
* `outputcache/inmemory/inmemory.go:101` removes the responses carrying a tag. A key stored again under other tags is
  still listed under its old ones, and goes with them (`Store.OverwrittenTagsLinger`, `Store.FilterExactly`).
* `outputcache/inmemory/inmemory.go:28-29` removes expired entries. The same `Get` lets go of the lock between lookup
  and deletion; what it deletes can be a newer response, or one extended meanwhile
  (`StoreRaces.DropTakesFreshResponse`, `StoreRaces.DropTakesFreshExactly`).
* `outputcache/key.go:38` is meant to tell requests apart. A bar in a header value can trade places between two headers
  (`CacheKey.BarsCollide`, `CacheKey.KeyDecides`).
* `outputcache/key.go:45-53` sorts the values of a parameter. `?page=1&page=2` and `?page=2&page=1` share a key, though
  `Query().Get` gives a handler the first (`VaryBy.RepeatedParameterIsStale`): of requests with one key, a handler has the
  same inputs exactly when no listed parameter starts with another value (`VaryBy.SameInputsExactly`).
* `outputcache/cache.go:183-184` records what the client is sent. After a second `WriteHeader` the recorder has the second
  status, the client the first (`OutputCache.SecondStatusIsCached`); which scripts are recorded as sent is exact
  (`OutputCache.RecordedExactly`).
* `router/stream.go:245-246` calls a comment a keep-alive. It goes out with an empty data line and reaches the consumer
  as an event (`SseRoundTrip.CommentsAreEvents`).
* `router/stream.go:181-184` splits data into lines as the event-stream format has it. What comes back lacks newlines at
  either end and carriage returns at line ends (`SseRoundTrip.TextKeptExactly`); event names and ids lose all but their
  last line (`SseRoundTrip.FieldKeptExactly`).
* Section 3.5 of RFC 8628 has `slow_down` lengthen the interval of every later poll; `examples/oauth2/device.go:260-262`
  lengthens the next one (`DeviceFlow.SlowDownForgotten`). From one answer that counts to the next the longer interval
  is kept exactly when the poll after the first does not come between the two intervals
  (`DeviceFlow.LongerKeptExactly`).

## Model

| member | source | states |
|---|---|---|
| Hoist.SchemaBuilder.SchemaFor | openapi/openapi.go:788-886 | Terminates on every type graph whose cycles pass through named structs; the schema returned depends on the type alone; the components only grow, by what the type reaches, and every registered name but the placeholders in progress has its finished schema with all its references registered |
| Hoist.SchemaBuilder.Register | openapi/openapi.go:801-809 | The placeholder put in against cycles is replaced on return, everything else registered stays as it was, and what is new is reachable from this name |
| Hoist.SchemaBuilder.UnionSchema | openapi/openapi.go:815-832 | The union of the variants' schemas with the discriminator mapping the types define, the components kept consistent |
| Hoist.SchemaBuilder.StructSchema | openapi/openapi.go:893-914 | The object schema the fields define, whatever order names are met in, with every type mentioned registered |
| Hoist.HoistedExactly | openapi/openapi.go:788-914 | A builder that grew consistently from nothing holds exactly the reachable named structs, each with its own schema and no placeholder |
| Hoist.BuildDocument | openapi/openapi.go:136-170 | Over all endpoints, the components are the set of reachable structs, defined without any algorithm, and each endpoint has its type's schema |
| Hoist.VisitOrderIrrelevant | openapi/openapi.go:136-170 | Documents of the same types in any order and multiplicity have the same components |
| Hoist.HoistedComplete | openapi/openapi.go:788-914 | Every reference in the document resolves, and every root that names a struct is a component |
| Hoist.UnfoldIsInline | openapi/openapi.go:788-914 | Following references from a type's schema to any depth gives the tree of the Go type with its structs written in place |
| Hoist.HoistingPreservesMeaning | openapi/openapi.go:136-170 | The same for every type of a whole document |
| Names.NameSet.Claim | clientgen/naming.go:226-241 | Terminates within one more try than there are used names; the name is new, is the wish or the least free numbered form of it, and is used afterwards |
| Names.ChosenWithinBound | clientgen/naming.go:226-241 | Whatever name meets the description of a claim is unused, not empty, and found within the bound |
| Signature.StructSignatureIsWritten | clientgen/schema.go:367-378 | The signature depends on the form of an object alone: not on documentation, constraints or the order of required |
| Signature.ReadBack | clientgen/schema.go:380-402 | A signature of legible parts spells its form: a reader gets back exactly that form, whatever follows |
| Signature.SignatureDecidesShape | clientgen/schema.go:367-378 | Two legible anonymous objects have one signature exactly when they have one form |
| Meaning.InlineUnionsCollide | clientgen/schema.go:387-389 | Objects around inline unions of different variants have one signature and different shapes |
| Meaning.SameSignatureSameShape | clientgen/schema.go:296-303 | In a document of readable names whose equal-looking anonymous objects hold the same unions, anonymous objects that share a declaration have one shape on the wire, to every depth |
| Meaning.SharedExactly | clientgen/schema.go:296-303 | Two anonymous objects of readable names that share a declaration have the same shape at every depth exactly when unions at the same places inside them have the same variants |
| Meaning.OneUnionPerProperty | clientgen/schema.go:387-389 | One union to each discriminator property is enough for all sharing in a document to be right |
| Meaning.UnionSignatureDecides | clientgen/schema.go:327-333 | Inline unions that share a declaration have the same discriminator and the same variants |
| Meaning.NoUnion | clientgen/schema.go:359-363 | Alternatives are a union only with a discriminator property and something to tell apart; otherwise they say nothing |
| Registry.SignatureKindsDiffer | clientgen/schema.go:300-330 | No object shares a declaration with a union |
| Registry.Registry.Declare | clientgen/schema.go:79-87 | Every component gets a name of its own, none reserved, before anything is built; each is the name the component asks for, or that and a number |
| Registry.Registry.BaseType | clientgen/schema.go:215-251 | The expression denotes the schema, and names and declarations keep their invariant; fails only on a reference, or a mapping, that does not resolve |
| Registry.Registry.ClaimName | clientgen/spec.go:210-212 | A name claimed for something else is new, and no declaration gets it from then on; it is the wish, or that and a number |
| Registry.Registry.ObjectType | clientgen/schema.go:273-291 | An object is a map, an empty one, or a declared struct, and denotes its schema |
| Registry.Registry.SynthesizeStruct | clientgen/schema.go:296-317 | One declaration per signature, new or found, with the fields of the schema; no name is lost or declared twice on the way |
| Registry.Registry.SynthesizeUnion | clientgen/schema.go:319-338 | The same for an inline union |
| Registry.Registry.UnionVariants | clientgen/schema.go:340-357 | The variants of the mapping in order, each under its component's name; fails exactly where there is no mapping or one is not declared |
| Registry.Registry.StructFields | clientgen/schema.go:152-191 | One field per property under its own Go name, optional exactly where not required, denoting the property; the name is the Go form of the property, or that and a number |
| Registry.Registry.GoType | clientgen/schema.go:193-206 | A pointer, to a primitive or a declared type, exactly where the value may be missing and its type has no nil |
| Absence.OptionalTellsMissing | clientgen/schema.go:193-206 | Before it is decoded, every optional field holds a value that no JSON value decodes to, so a missing property is told from every other; it has one pointer where its type alone would not do that, and else none |
| Absence.RequiredHasNoPointer | clientgen/schema.go:193-206 | A required field has its type as it is |
| Absence.NilableIsText | clientgen/schema.go:208-213 | A type has a nil of its own exactly if its text starts with `[]` or `map[`, or is `any` or `json.RawMessage` |
| Absence.ScalarTexts | clientgen/schema.go:233-271 | A format that names a width gets Go's type of that width, `date-time` and `binary` a time and bytes, anything else the plain type |
| Registry.Registry.BuildNamed | clientgen/schema.go:105-148 | The component's declaration matches its schema and adds no declaration but synthesized ones |
| Registry.Registry.Build | clientgen/schema.go:89-103 | Every component is declared from its own schema, and the build fails only where a reference does not resolve |
| Registry.EveryNameDeclared | clientgen/schema.go:89-148 | After a build every name used in any declaration is declared, once: for one component or one signature, never a reserved word |
| Registry.DenotesNames | clientgen/schema.go:193-251 | A type expression anywhere, of a field, parameter or result, uses declared names only |
| Meaning.ClientKeepsShape | clientgen/schema.go:89-148 | In a document of readable names whose shared objects are the same inside, the declaration of every component has the component's shape on the wire, to every depth, through cycles |
| Sharing.SaysTheSameExactly | clientgen/schema.go:89-338 | Where names can be read back, the client says of every component and of every schema an operation uses what the document says, to every depth, exactly when anonymous objects of one form hold the same unions |
| WireContract.TypeMeans | openapi/openapi.go:788-914 | The schema of a Go type has the shape the type's fields, elements, variants and tags give the document, to every depth |
| WireFit.ScalarHeldExactly | openapi/openapi.go:856-882 | The client type made of a scalar's schema and `format` tag accepts every value of the Go kind, unquoted, exactly for the kinds and tags listed: not `uint` or `uint64`, `uint32` only under a tag that widens it, none under a tag that narrows it |
| WireFit.FormatIsWidth | openapi/openapi.go:856-882 | The schema of a scalar says exactly what it is, and how wide an integer or number is where there is a format for that |
| WireFit.FieldHeldExactly | openapi/openapi.go:856-882 | The same for a field of a scalar type with all its tags: quoted by the option `string`, only a string is held |
| WireFit.TimeHeldExactly | openapi/openapi.go:969-972 | A time is held under every tag but `binary` |
| WireFit.Uint32DoesNotFit | clientgen/schema.go:263-271 | The client's type for a `uint32` rejects a value the server may send |
| WireFit.BytesDoNotFit | clientgen/schema.go:241-246 | encoding/json writes `[]byte` as a string, and the client expects a list of integers |
| WireFit.QuotedDoesNotFit | openapi/openapi.go:893-914 | An `int64` tagged `json:"id,string"` is a string on the wire and an `int64` of the client's |
| WireFit.UnionHeldExactly | openapi/openapi.go:815-854 | Among held structs, a union is held exactly when its property is a name encoding/json reads, every variant has text there, and the document lists every variant under the constant it has on the wire |
| WireFit.NumberedTagDoesNotFit | clientgen/emit.go:82-89 | A variant with a number for discriminator cannot be read |
| WireFit.HeldExactly | openapi/openapi.go:788-914 | For any set of structs closed under mention, every value the server writes fits the documented shape, to every depth, exactly when each struct's fields are written under their documented names and each field and union is held |
| WireContract.RequiredExactly | openapi/openapi.go:943-959 | Under distinct names a property is required exactly when `fieldRequired` holds of its field |
| WireContract.RequiredIsWritten | openapi/openapi.go:933-959 | A required field is one encoding/json always writes; one it always writes is not required exactly when it is a pointer, a type that is never empty marked `omitempty`, or marked with blanks around the mark |
| WireContract.NotesExactly | openapi/openapi.go:856-914 | A property carries its description, the limits of its tags, its constant, and zero for a minimum if it is unsigned, what a tag says before what the type says, and nothing else |
| WireContract.NameKeptExactly | openapi/openapi.go:916-931 | The documented name of a field is the one encoding/json writes exactly unless its tag starts with "-" and a comma, or has a name encoding/json does not take |
| WireContract.DashIsDropped | openapi/openapi.go:923-926 | `json:"-,"` is the name "-" on the wire and no property of the document |
| WireContract.MappingIsVariants | openapi/openapi.go:815-832 | Each listed value leads to the last variant the compiler reads it from, by reference |
| Discriminators.MappingExactly | openapi/openapi.go:815-854 | Where encoding/json and the compiler read the tags alike, the mapping lists exactly the constants of fields that variants write under the property, each with a variant that has it |
| Discriminators.ConstIsWritten | openapi/openapi.go:832-854 | The value the compiler finds in a struct is the constant of the field encoding/json writes under the property |
| Discriminators.TagNameExactly | openapi/openapi.go:838-851 | The name the compiler compares is the name on the wire exactly unless the tag names the field "-" or in a way encoding/json does not take |
| Discriminators.HiddenTagIsListed | openapi/openapi.go:838-851 | A field tagged `json:"-"` is not written, and its constant is listed all the same |
| ByValue.NoTypeContainsItself | clientgen/schema.go:105-206 | Where the component graph has no by-value cycle and anonymous objects have readable names, no chain of by-value fields and aliases in the generated program returns to its start, whatever unions they hold |
| ByValue.LayoutRanks | openapi/openapi.go:893-914 | A server program without by-value cycles yields a document without any |
| Pipeline.DocumentResolves | clientgen/schema.go:89-103 | Every component the server makes resolves in the client compiler |
| Pipeline.DocumentedExactly | clientgen/schema.go:89-338 | Where names can be read back, the client's type for every server struct, and for every type an operation uses, is what the document says of it, to every depth, exactly when objects that share a declaration are the same inside |
| Pipeline.WireHeldExactly | clientgen/schema.go:105-271 | A client that is what the document says holds everything the server writes, to every depth, exactly when every field, union and used type is held |
| Pipeline.FieldsKept | clientgen/schema.go:152-191 | After any finished build the client struct of a server struct with any JSON names has exactly those, each once, and `omitempty` exactly where `fieldRequired` is false |
| Pipeline.NoClientTypeContainsItself | clientgen/schema.go:105-206 | Where no server struct holds itself by value and anonymous objects have readable names, no client type does |
| Pipeline.CyclesQualify | openapi/openapi.go:801-809 | All premises of the pipeline's theorems are met by a struct that refers to itself |
| Pipeline.GenerateClient | clientgen/generate.go:25-48 | One compiler after the other: on every program whose types a client can use, generation succeeds, declares every name used by declarations and operations, gives each method and each parameter struct a name of its own, made of what each is called in the document, and keeps all fields; with readable names the client has no by-value cycle; it is what the document says exactly when shared objects are the same inside, and then holds what the server writes exactly when every type written is held |
| Pipeline.BuildOperations | clientgen/spec.go:128-148 | Every type an operation uses gets an expression that denotes its schema, every operation a method name of its own, every one with parameters the name of a struct no declaration has or will get; methods are named after operation ids, parameters' types after methods |
| Pipeline.BuildOperation | clientgen/spec.go:173-214 | The same for one operation, after any others; its parameters' type is named after the method |
| PathTemplates.LexPrints | openapi/openapi.go:353-375 | Reading a path with closed braces into literals and templates loses nothing of it |
| PathTemplates.PathTemplateNames | openapi/openapi.go:353-375 | The names of the templates in order, without the ellipsis, anchors and empty templates, up to the first unclosed brace |
| PathTemplates.GroupNames | openapi/openapi.go:353-375 | A group is named by what it holds, less three dots at its end; `$`, nothing, and the dots alone name none |
| PathTemplates.FillMissingPathParams | openapi/openapi.go:248-268 | The declared parameters, then one per undeclared template name |
| PathTemplates.FilledDeclares | openapi/openapi.go:248-268 | The completed list declares every template name, and none of its additions twice |
| PathTemplates.BuildPathParts | clientgen/spec.go:272-320 | Literals and substitutions of the path in order, or the first fault: an unknown name or an unclosed brace |
| PathTemplates.PartsAreWhole | clientgen/spec.go:282-320 | No literal among the parts is empty, and no two meet |
| PathTemplates.WildcardExactly | clientgen/spec.go:298-312 | A substitution takes the rest of the path exactly if its group ends in three dots |
| PathTemplates.AssembleSucceeds | clientgen/spec.go:272-320 | Splitting succeeds exactly when the braces close and every name is known |
| PathTemplates.PathSurvivesTheDocument | clientgen/spec.go:272-320 | On the completed list, with a field of its own for each path parameter, the client splits every path with closed braces, no other, and its parts print that path minus anchors and empty templates |
| OperationParams.BuildParams | clientgen/spec.go:216-268 | Every path, query and header parameter, in that order and by name, behind a field no other has, required if declared so or in the path; fails exactly where one of them has no type, and named after its parameter |
| OperationParams.DescribedCarry | clientgen/spec.go:216-255 | The fields so made are what splitting a path needs: one of its own for every path parameter of the document, and none for anything else |
| OperationParams.DocumentAndSplit | clientgen/spec.go:173-214 | From the handler's parameters to the client's path parts: once parameters have types, the path falls apart exactly when its braces close, and its parts print it minus anchors and empty templates |
| PathTemplates.NothingLeftOut | clientgen/spec.go:272-320 | A path without those prints back byte for byte |
| Compress.LawfulCodecExists | compress/writer.go:15-19 | The laws assumed of a compressed format can be met |
| Compress.RunIs | compress/writer.go:82-137 | After any calls the writer is plain, holding back, or encoding, as the calls alone decide, with exactly the bytes that state owes |
| Compress.Invisible | compress/writer.go:82-216 | After close the client has one header, with the first status (200 if a write or flush came first, or nothing), and a body that decodes by the encoding announced to all that was written |
| Compress.EncodedExactly | compress/writer.go:82-121 | The response is announced encoded, and stripped of its length, exactly when it was eligible, an encoding was negotiated and the body reached MinSize before any flush; never twice encoded |
| Compress.SentUntouched | compress/writer.go:82-98 | With a Content-Encoding or Content-Range of the handler's, status 204, 206 or 304, or a type not listed, header and body go out exactly as written |
| Compress.SentOtherwise | compress/writer.go:82-121 | Any other response decided by a status or a write is sent with the negotiated encoding, Content-Length and Accept-Ranges removed, exactly if there is one and the body reaches MinSize before a flush, and else as written, with Vary added in both cases |
| Compress.SentUndecided | compress/writer.go:127-137 | Without a status or a write before the first flush it goes out as written |
| Compress.CompressibleExactly | compress/compress.go:117-138 | A type is listed whatever blanks, case and parameters it has, if it starts with an entry or ends with one that has a plus sign |
| Text.TrimSpaceIs | compress/compress.go:117-123 | Blanks of one byte on either side are cut off, and nothing else, whatever text between starts and ends with none |
| Text.WideSpaceIs | compress/compress.go:117-123 | The blanks of two and three bytes are the encodings of Unicode's white space beyond ASCII |
| Compress.Buffered | compress/writer.go:104-121 | After every call fewer than max(MinSize, 1) bytes are held back, and while any are the client has nothing |
| Compress.FlushDelivers | compress/writer.go:127-137 | After a flush the client can read everything written so far, encoded or not |
| Compress.VaryExactly | compress/writer.go:78-101 | Vary gains one entry exactly when the response is compressible and a status or a write comes first |
| Compress.FlushFirstDropsVary | compress/writer.go:127-130 | A compressible response that flushes first goes out without Vary |
| Compress.HijackDelivers | compress/writer.go:143-158 | Everything accepted is on the wire, decodable, before the connection is given away, and closing adds nothing |
| Compress.TakenOnce | compress/writer.go:185-224 | A response takes at most one compressor, gives back no more than it took, and holds the difference |
| Compress.AllGivenBack | compress/writer.go:207-224 | By the end it has given back what it took, also when hijacked first |
| CompressWriter.Pools.Get | compress/writer.go:34-43 | A compressor for the key asked for, from its pool or new, at rest nowhere afterwards |
| CompressWriter.Pools.Put | compress/writer.go:220-224 | A compressor at rest nowhere and pointing at no response is at rest once, in the pool of its own key |
| CompressWriter.ResponseWriter.constructor | compress/compress.go:50-55 | The writer starts undecided, with status 200 and no compressor |
| CompressWriter.ResponseWriter.WriteHeader | compress/writer.go:82-102 | The step of the state machine, with no compressor taken or given back |
| CompressWriter.ResponseWriter.CompressibleType | compress/compress.go:120-138 | True exactly when the media type has a configured prefix, or a configured structured suffix |
| CompressWriter.ResponseWriter.Write | compress/writer.go:104-121 | The step of the state machine; all bytes accepted; a compressor taken exactly where the state says so |
| CompressWriter.ResponseWriter.Flush | compress/writer.go:127-137 | The step of the state machine, the compressor kept |
| CompressWriter.ResponseWriter.Hijack | compress/writer.go:143-158 | The step of the state machine, the compressor back in its pool |
| CompressWriter.ResponseWriter.CommitPlain | compress/writer.go:168-179 | What was held back goes out as it is, under one header |
| CompressWriter.ResponseWriter.CommitEncoded | compress/writer.go:185-203 | What was held back goes through a compressor of the writer's own, under a header that says so |
| CompressWriter.ResponseWriter.Close | compress/writer.go:207-216 | The step of the state machine, the compressor back in its pool |
| CompressWriter.ResponseWriter.Release | compress/writer.go:220-224 | The compressor is back at rest, pointing at no response, as all in the pools do |
| CompressWriter.Turn | compress/writer.go:60-70 | A call on one of several responses leaves the others as they were, and no compressor is shared or at rest in the wrong pool |
| CompressWriter.Serve | compress/writer.go:21-216 | Over any interleaving of any number of responses, with pools emptied at any moment, each compressor is in its own pool or with one response, and each response fares as if alone; what the client of one that has ended holds is one header and a body that decodes to what was written |
| CompressWriter.RunDelivers | compress/writer.go:82-216 | Any calls that end with a close leave the client what it should see |
| Negotiate.ParseAcceptEncoding | compress/compress.go:95-115 | Each encoding named has the quality of the last element naming it that parses |
| Negotiate.BareElement | compress/compress.go:95-115 | An encoding without parameters has quality 1, blanks and case aside |
| Negotiate.QualityElement | compress/compress.go:101-112 | `q=` in either case and with any blanks gives its quality, and one that is no number makes the element say nothing |
| Negotiate.Chosen | compress/compress.go:62-90 | The encoding is one the client accepts and the server has, none it accepts is wanted more, ties go to gzip, and none is chosen only if none is accepted |
| Negotiate.Negotiate | compress/compress.go:69-90 | The loop computes that choice |
| Negotiate.AskedForOne | compress/compress.go:62-90 | A header of one word gets that encoding if the server has it, and gzip if it is a star |
| Store.ListLists | outputcache/inmemory/inmemory.go:63-65 | After a Set a key is listed exactly where it was, and under each tag of the response |
| Store.StepTimes | outputcache/inmemory/inmemory.go:54-133 | A key is listed under a tag as often as it was set with it, less the deletions of responses that had it, and not at all once the tag is invalidated |
| Store.RunNoneEmpty | outputcache/inmemory/inmemory.go:86-88 | No tag is left in the index without a key |
| Store.AlwaysListed | outputcache/inmemory/inmemory.go:54-133 | In every reachable state each cached key is listed under every tag of its response, despite overwrites, duplicates, removals of the first match and cleanup |
| Store.InvalidatedIsGone | outputcache/inmemory/inmemory.go:102-133 | After any run, invalidating tags leaves no entry that carries one |
| Store.TagsInTurn | outputcache/inmemory/inmemory.go:117-133 | InvalidateTags does what InvalidateTag does on each tag in turn |
| Store.FilterExactly | outputcache/inmemory/inmemory.go:102-114 | Invalidation is a filter on tags exactly where no key is still listed under a tag its response does not carry |
| Store.HitsAreRight | outputcache/inmemory/inmemory.go:30-163 | With any tags, any clock and cleanup at any moment, a hit is the hit of a plain map of key to response and deadline |
| Store.AnswersPlainly | outputcache/inmemory/inmemory.go:30-163 | With tags fixed per key and a clock that does not go back, every Get answers exactly as the plain map |
| Store.OverwrittenTagsLinger | outputcache/inmemory/inmemory.go:54-67 | With tags that change, an entry can vanish by a tag it never carried |
| MemoryStore.MemoryStore.Get | outputcache/inmemory/inmemory.go:30-51 | Answers and leaves the store as the operation on values says, the deadline moved in place |
| MemoryStore.MemoryStore.Set | outputcache/inmemory/inmemory.go:54-67 | Stores the response under its key and lists it under its tags, all other entries untouched |
| MemoryStore.MemoryStore.Delete | outputcache/inmemory/inmemory.go:70-91 | Removes the entry and one slot per tag of its response |
| MemoryStore.MemoryStore.UnlistTag | outputcache/inmemory/inmemory.go:79-88 | The first slot holding the key goes, and the list with the last slot |
| MemoryStore.MemoryStore.Clear | outputcache/inmemory/inmemory.go:94-99 | The store is empty |
| MemoryStore.MemoryStore.InvalidateTag | outputcache/inmemory/inmemory.go:102-114 | Every entry listed under the tag goes, and the list |
| MemoryStore.MemoryStore.InvalidateTags | outputcache/inmemory/inmemory.go:117-133 | Every entry listed under one of the tags goes, and their lists |
| MemoryStore.MemoryStore.Cleanup | outputcache/inmemory/inmemory.go:154-163 | Exactly the expired entries go, in whatever order they are visited |
| StoreRaces.SectionsAreOperations | outputcache/inmemory/inmemory.go:30-133 | Each lock section, in any interleaving, does to the store what the operation it belongs to does; looking and judging do nothing; extending moves the deadline of the response found, and no other |
| StoreRaces.AloneIsGet | outputcache/inmemory/inmemory.go:28-55 | After any interleaving, the steps of one `Get` with nothing in between are the operation on values: the store ends as it says, dropped or extended, and the answer is its answer |
| StoreRaces.HitWasCurrent | outputcache/inmemory/inmemory.go:30-51 | In every interleaving a hit was stored under its key when it was looked up, and when it was judged it had not expired at the time read in between |
| StoreRaces.InvalidatedNeverReturns | outputcache/inmemory/inmemory.go:30-133 | A Get that starts after a tag was invalidated never returns a response with that tag stored before, whatever runs in between |
| StoreRaces.DropTakesFreshResponse | outputcache/inmemory/inmemory.go:38-42 | An interleaving in which a Get that judged a response expired drops the one stored since |
| StoreRaces.DropTakesFreshExactly | outputcache/inmemory/inmemory.go:30-51 | In every interleaving such a Get drops a response not expired at the time it read exactly when the key now holds one whose deadline another call set past that time: put since the lookup, or extended since the deadline was judged |
| CacheKey.GenerateKey | outputcache/key.go:39-84 | The hash of the text made of method, path, sorted query, sorted headers and custom part |
| CacheKey.PlainKey | outputcache/key.go:39-84 | For a request with nothing that is listed the text is verb, path and the custom part with its mark, joined by bars; what is empty leaves no trace |
| CacheKey.KeyForgetsOrder | outputcache/key.go:39-84 | The text does not depend on the order of query values, nor of listed parameters and headers |
| CacheKey.KeyDecides | outputcache/key.go:39-84 | On separator-free components two requests have one text exactly when they agree, up to order, on all that is listed |
| CacheKey.BarsCollide | outputcache/key.go:62-72 | With a bar in a header value, requests that differ can have one text |
| CacheKey.HitIsReadable | outputcache/key.go:141-145 | Under VaryByEncoding, with compression inside the cache, a hit's stored encoding is one the request accepts |
| OutputCache.RecordedExactly | outputcache/cache.go:185-199 | The recorder has what the client saw exactly when the script's last status is the one sent at its first status or write, and its header edits after that leave the headers as they were |
| OutputCache.InForceExactly | outputcache/cache.go:70-89 | A request is governed by its route's profile if one of that name is configured, and else by what the route says; not at all with an excluded method or without a route |
| OutputCache.PassedBy | outputcache/cache.go:70-80 | A request nothing governs leaves the store alone and gets the handler's response |
| OutputCache.StoredExactly | outputcache/cache.go:107-144 | After a miss the response is stored exactly if its status is one configured, or successful where none is, and the route's condition holds: as recorded, for the lifetime in force, under the tags in force, with an ETag where revalidation is on |
| OutputCache.ServedExactly | outputcache/cache.go:94-105 | A hit is answered with the stored response, or with 304 exactly where revalidation is on and If-None-Match is the stored ETag or a star |
| OutputCache.FirstAnswer | outputcache/cache.go:107-130 | A miss is answered with the handler's response, which gains the ETag only if the handler had sent nothing |
| OutputCache.StoredIsAllowed | outputcache/config.go:61-71 | Over every run, only statuses configured, or successful ones where none is, are in the store |
| OutputCache.OrderlyRepeatable | outputcache/cache.go:185-199 | So it is with every handler that sets headers, then at most one status, then writes |
| OutputCache.SecondStatusIsCached | outputcache/cache.go:191-194 | A second status is cached though the first was sent |
| OutputCache.EditsExactly | outputcache/cache.go:152-161 | Setting a header leaves it one value, adding gives it one more after those it had, and no other header changes |
| OutputCache.AlwaysCurrent | outputcache/cache.go:67-147 | Over every run of requests of a regular kind in which each change is followed by invalidating a tag of every route it affects, what is stored is what the handler writes now for every such request with that key |
| OutputCache.AnswersAreCurrent | outputcache/cache.go:67-161 | Over every such run the next answer is what the handler would write now, up to the ETag where revalidation is on, or a 304 for an If-None-Match that matches it |
| OutputCache.KeptIsServed | outputcache/cache.go:69-146 | Through any further requests, cleanups and changes that neither invalidate it nor come too late, a response kept answers every request with its key in the handler's place, exactly until its time runs out, counted from the last hit if it slides |
| OutputCache.InputsSuffice | outputcache/cache.go:91-92 | Requests are of a regular kind when routes go by method and path, handlers look at nothing their settings do not list, and the keys of these requests are separator-free |
| VaryBy.ReadersAreKeyed | outputcache/route.go:21-36 | Whatever query parameters and headers a route varies by, a handler that writes from the first value of each meets that premise on all requests with separator-free keys and no listed parameter repeated |
| VaryBy.ArticlesStayCurrent | outputcache/route.go:21-36 | A site that varies by a parameter and two headers meets it, for every page and language without separators |
| VaryBy.ArticlesReadTheirInputs | outputcache/route.go:21-36 | and its handler does read them |
| VaryBy.SameInputsExactly | outputcache/key.go:43-53 | Of separator-free requests with one key, a handler has the same inputs exactly when no listed parameter starts with another value |
| VaryBy.RepeatedParameterIsStale | outputcache/key.go:43-53 | Asked for two pages in the other order, the site answers with the first one's page |
| CacheMiddleware.Recorder.WriteHeader | outputcache/cache.go:191-194 | The last status is kept, the first one sent |
| CacheMiddleware.Recorder.Write | outputcache/cache.go:196-199 | The same bytes go to the client and to the record |
| CacheMiddleware.Recorder.ReadFrom | outputcache/cache.go:201-206 | Copying from a reader does to client and record what one Write of all its bytes does, and nothing where there are none |
| CacheMiddleware.Recorder.Run | outputcache/cache.go:107-112 | A handler run over the recorder leaves the client its response and the recorder its record |
| CacheMiddleware.Cache.ServeHTTP | outputcache/cache.go:69-146 | The client's response and the new store are those of the model, on every path: excluded, not configured, hit, 304, miss |
| CacheMiddleware.Cache.Record | outputcache/cache.go:107-144 | A recorded response is stored exactly when its status and the route's condition allow, with its tags, duration and ETag |
| CacheMiddleware.Cache.Keep | outputcache/cache.go:121-144 | What is kept is the record under its ETag, and the client's headers gain the same |
| CacheMiddleware.Cache.ServeCachedResponse | outputcache/cache.go:150-161 | On an empty header map, whatever order it is filled in, the client gets the stored response |
| Framing.LinesOfUnlines | router/bind.go:533-552 | Scanning lines written with newlines gives them back, less a carriage return at the end of each |
| Sse.ParseIsGrammar | router/bind.go:530-587 | On every byte string the parser yields one event for each group of lines between blank ones that is not all comment, the last group included: last event and id, last number, data joined from the first line that is not empty, less one final newline |
| Sse.SseIterator | router/bind.go:530-587 | The server's loop is that parser, and a consumer that stops early has a prefix |
| Sse.SseSeq | clientgen/internal/runtime/runtime.go:648-705 | So is the client's: the two agree on every input |
| SseRoundTrip.OneEventPerSend | router/stream.go:211-243 | Parsing what was sent yields exactly one event per Send, in order, whatever the strings contain |
| SseRoundTrip.FieldKeptExactly | router/stream.go:298-305 | Event and ID come back unchanged exactly when they hold no newline and do not end in a carriage return |
| SseRoundTrip.TextKeptExactly | router/stream.go:315-341 | Data comes back unchanged exactly when no newline is at either end and no carriage return at the end of a line |
| SseRoundTrip.ReceivedExactly | router/stream.go:211-243 | An event comes back whole exactly when all its fields do and Retry is not negative |
| SseRoundTrip.CommentsAreEvents | router/stream.go:245-249 | A comment alone reaches the consumer as an empty event |
| SseRoundTrip.SSEWriter.Send | router/stream.go:211-243 | One whole frame is written, or nothing: closed, canceled or not encodable |
| Sse.PayloadExactly | router/stream.go:315-334 | Text goes out as it is, an encoded value without the newlines at its end, and only a value the codec refuses does not go out |
| Text.AtoiOfItoa | router/bind.go:575-578 | A number of 64 bits is read back, bare or under either sign, and one out of range is not |
| Text.AtoiReadsDigits | router/bind.go:575-578 | Whatever is read as a number is digits after at most one sign |
| SseRoundTrip.WriteField | router/stream.go:298-313 | Every line of the value goes out after the prefix |
| SseRoundTrip.SSEWriter.Close | router/stream.go:262-271 | Nothing more is written |
| JsonStreams.RecordsSplit | router/bind.go:464-528 | Whatever follows a separator, the records before it are the same |
| JsonStreams.TruncationKeeps | router/bind.go:464-528 | A body cut off anywhere yields the records of the whole in order, but for the last it yields |
| JsonStreams.ReadJSONSeqRecord | router/bind.go:512-528 | The bytes up to the next separator, which stays unread |
| JsonStreams.JsonSeqIterator | router/bind.go:464-507 | On every byte string, the non-blank runs between separators, none before the first, to a consumer that may stop early |
| JsonStreams.JsonlIterator | router/bind.go:430-462 | The non-blank lines, likewise |
| JsonStreams.SeqRoundTrip | router/stream.go:109-132 | Reading inverts writing exactly on payloads that are not blank and hold no separator |
| JsonStreams.LineRoundTrip | router/stream.go:109-132 | The same for lines: exactly on payloads of one line, not blank, not ending in a carriage return |
| JsonStreams.StreamWriter.Send | router/stream.go:109-132 | One framed record ending in a newline, or nothing |
| JsonStreams.StreamWriter.Close | router/stream.go:148-157 | Nothing more is written |
| JsonStreams.JsonLinesBody | clientgen/internal/runtime/runtime.go:495-522 | The records before the first error, with at most a separator after them; fails exactly on an error |
| JsonStreams.DanglingSeparator | clientgen/internal/runtime/runtime.go:508-517 | That separator reads as nothing |
| DeviceFlow.RunExplained | examples/oauth2/device.go:53-289 | In every run the two maps hold the same grants, and each grant has the one decision made in time, or none was |
| DeviceFlow.AnswerExactly | examples/oauth2/device.go:232-289 | Every poll of every run: a device whose grant waits, in time and in pace, gets a token exactly if the first visit in time allowed it, access_denied exactly if it did not, authorization_pending exactly if there was none; slow_down exactly if it comes too soon, expired_token exactly if it is late or its grant was answered for good |
| DeviceFlow.NeverBegun | examples/oauth2/device.go:251-252 | A code never handed out is answered expired_token |
| DeviceFlow.TokenWasApproved | examples/oauth2/device.go:199-289 | A token goes out only for a code whose user said yes, in time, on the first visit with it, before it expired, with the scopes asked for |
| DeviceFlow.OneToken | examples/oauth2/device.go:232-289 | After a token every answer to that device code is expired_token |
| DeviceFlow.Spaced | examples/oauth2/device.go:253-274 | Two answers to one code other than slow_down and expired_token are at least the polling interval apart |
| DeviceFlow.SlowDownCosts | examples/oauth2/device.go:260-262 | After slow_down the next such answer is a second further off |
| DeviceFlow.IntervalExactly | examples/oauth2/device.go:260-265 | A poll is told to slow down exactly when it comes sooner than the interval set by the answer before it: a second longer after slow_down, plain otherwise |
| DeviceFlow.LongerKeptExactly | examples/oauth2/device.go:260-265 | From one answer that counts to the next at least the longer interval passes exactly when the poll after the first does not come between the plain interval and the longer one |
| DeviceFlow.SlowDownForgotten | examples/oauth2/device.go:260-265 | A run in which, after slow_down, two answers that count come the plain interval apart |
| DeviceFlow.PollsAreRationed | examples/oauth2/device.go:253-274 | A window of length L holds at most L / pollMin + 1 of them |
| DeviceStore.Store.DeviceAuth | examples/oauth2/device.go:53-89 | A known client gets a pending grant under both codes, with the default scope where it asks for none |
| DeviceStore.Store.DeviceVerify | examples/oauth2/device.go:199-214 | A pending grant in time takes the decision; nothing else changes |
| DeviceStore.Store.DeviceToken | examples/oauth2/device.go:232-289 | Answer and new state are those of the model, and an answered grant is gone from both maps |
| DeviceStore.ValidAgrees | examples/oauth2/device.go:76-79 | The objects under the two maps are the same |
| AuthCode.Store.Authorize | examples/oauth2/authcode.go:111-145 | Consent stores the code with all it must be checked against; refusal stores nothing |
| AuthCode.Store.Token | examples/oauth2/authcode.go:147-183 | A code presented is spent, whatever comes of it; the reply is the model's |
| AuthCode.TokenIsEarned | examples/oauth2/authcode.go:147-191 | A token goes to the client, redirection and verifier the code was made for, in time, the first time the code is presented |
| AuthCode.AnswerExactly | examples/oauth2/authcode.go:147-191 | Every token request of every run: a token for the code's client and scopes exactly if the code was made, is presented for the first time and in time, and client, redirection and verifier are its own; invalid_grant else |
| AuthCode.OneToken | examples/oauth2/authcode.go:155-165 | A code presented once never yields a token again |

## Left out

- net/http, ServeMux matching, sockets, gzip and flate, reflection, JSON encoding, SHA-256 and random codes: a compressed
  format is any with the laws of `Compress.Lawful`; hashes, parsers and generated codes are parameters.
- Names: how `exportedName` and `typeName` split and spell words (`clientgen/naming.go:57-215`) is a parameter; what is
  proved of names is what `claim` makes of any wish. What an anonymous type would like to be called, made of the field
  or the operation it is met in with `Item` or `Value` for what is inside, is not followed into its name. Generics' type arguments in reference names are among the names a
  signature cannot carry.
- Schemas: documentation, constraint tags, embedded structs, raw request bodies and nil encoded as null; keywords no
  compiler looks at are carried along in `notes`. A type cycle without a named struct (`type T []T`) is not a value of
  the model; on such a type the code would not terminate. Structs are told apart by name; of two with one name in
  different packages the code documents one.
- What a server writes: types with a MarshalJSON or MarshalText of their own other than `time.Time` and
  `json.RawMessage`, `json.Number`, arrays of length zero, and a discriminator field that does not hold its constant.
  Letters beyond ASCII are letters to encoding/json. A variant without a constant counts as held if its tag is text: the
  client keeps its bytes.
- `buildNamed` and `build` guard against a name already built or being built; the model proves that neither guard is ever
  taken and leaves them out.
- `clientgen/spec.go` beyond paths, types used and names: pointers and slices of parameters, form fields and files, media
  types, operation ids, and all emitted text.
- Go's `int` and `uint` are 64 bits wide. Values a client sends to a server are not compared with what it reads.
- A generated client's compressors, connections and retries.
- Compression: an inner writer that fails, a connection that cannot be hijacked, statuses below 200, and header edits
  after the first write. Qualities are real numbers: NaN and infinities are not among them. Letters are lowered in ASCII.
- Compress.FlushDelivers: assumes of the format that a flushed stream can be decoded so far, which gzip and flate offer.
- Cache: the Redis store, headers already in the writer when a cached response is served, and two requests at once
  through the middleware; the store itself is modelled under concurrency.
- Unlocked reads and writes of one word, such as a deadline outside the lock, are taken to be atomic.
- CacheKey.KeyDecides: for separator-free components only; with separators some requests still get keys of their own, and
  which ones depends on where the separators fall.
- Streams: lines longer than the scanner's limit, errors of the reader, decoding of records (a parameter), and multipart.
- SseRoundTrip.SSEWriter.Send: the response headers are not modelled beyond having been sent or not, nor a write that fails.
- OAuth: pages, redirects, client credentials and bearer tokens; user codes are compared as normalised by the handler.
- Router registration, binding, CORS, static files and the other examples are short folds or case analyses.
