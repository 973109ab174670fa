# A Dafny model of the ArcadeLauncher stream engine

The engine talks to its launcher over a local pipe, pairs with game-streaming hosts, and keeps a few
small files. This project models that logic and proves what it is for. `dafny verify dfyconfig.toml`
checks all of it.

| file | models | main results |
|---|---|---|
| `Common.dfy` | digits, decimal and hexadecimal text | digits mean what the numeral tables say |
| `JsonValue.dfy`, `JsonText.dfy` | the value tree and its key order; printer and parser as functions | |
| `JsonNumber.dfy` | number tokens as a grammar | `strtod` reads exactly them, as what they denote |
| `JsonGrammar.dfy`, `JsonSound.dfy`, `JsonUnique.dfy` | concrete syntax trees | the parser accepts exactly the renderings of well-formed trees, each of one tree only |
| `JsonRoundTrip.dfy` | RFC 8259 and RFC 3629 as references | RFC texts parse to their tree; `parse(dump(v)) == v` |
| `JsonRfc.dfy` | the parser's language against RFC 8259 | exactly which accepted texts conform and which conforming texts are accepted |
| `JsonMachine.dfy` | the printer's buffer and the parser's cursor | the imperative code computes those functions |
| `Frame.dfy` | framing and the transport | frame streams are uniquely decodable, also when cut |
| `Server.dfy` | handshake and dispatch loop | end to end: one hello, then one response per request |
| `WriteLock.dfy`, `EventStream.dfy` | concurrent writers under the mutex | whole frames in lock order; a whole session received among events |
| `Xml.dfy`, `Markup.dfy` | tag search, entities, hex; documents a host writes | fields, status and bytes are read as written |
| `AppList.dfy` | the app list | every rendered list parses back; the exact disagreement of two resolvers |
| `Chunked.dfy` | chunked bodies and responses | decoding undoes every encoding and truncation; exactly when the loop ends |
| `Pairing.dfy`, `PairingEvidence.dfy`, `PairingHost.dfy` | the five-stage handshake; what its replies show; an honest host | soundness, failure traces, completeness |
| `IdentityStore.dfy` | the identity files under failing writes | exactly when they hold one generation and stay what was returned |
| `HostRegistry.dfy` | the paired-host file | refines a finite map over every history |
| `ClientTrust.dfy` | the trusted-client state | trust added, nothing else changed, idempotent on the text |
| `HostApps.dfy` | the app catalogue and its diff | round trip, balance, zero exactly for equal catalogues |
| `StreamSession.dfy` | `start`/`stop` against the worker and the library's callbacks | connections alternate; callbacks use live renderers; when `start` ends the process |
| `FrameHandoff.dfy` | the one-slot frame handoff | every frame freed once; shown in order; counter bound |

Conventions. A byte is a `char`, and strings are sequences of them, so the text results hold for bytes
in particular; where the numeric value matters (hexadecimal, pairing) strings are required to hold
values below 256. Functions that consume text take and return the text that is left; functions named
`...Then(x, rest)` render `x` in front of `rest`. Numbers in JSON are exact reals, the doubles of the
source without rounding; `dump` prints integers below 9e15 in magnitude itself and leaves all other
numbers to a parameter that stands for the C library's `%.17g`. Code that works step by step is a method
proved equal to a function, and the theorems are about that function. Threads are interleaved atomic
steps of a state. OpenSSL appears as functions with stated laws (`PairingHost.Laws`), which
`LawsAreConsistent` shows can be met.

Where the code and its documentation differ, the model follows the code. `docs/IPC.md` says that
requests may be answered out of order; the loop answers them in order. `src/ipc/json.h` promises that
malformed text is rejected, but raw control characters in strings (`RawControls`), leading zeros, `1.`,
`-.5` (`MalformedNumbers`) are accepted; `AcceptedConforms` states exactly which accepted texts conform to
the grammar of RFC 8259. The other way, section 9 of the RFC has a parser accept every conforming text,
and a high surrogate without a low one after it is rejected (`RejectedText`); `ConformingIsAccepted` states
exactly which conforming texts are accepted. Lone low surrogates and repeated keys conform and are
accepted, with contents the RFC leaves open (`AcceptedIsDefined`).
`src/net/identity_store.cpp` says that `write_file` returns false on any error and that a half-written
identity is never presented; the stream is tested before it is flushed and closed, so a file that lost
bytes at the close is put in place as a success. `LostUidChangesIdentity` and `LostCertificateMixes` give
histories, `OneGenerationExactly` and `IdentityIsStable` the exact conditions.
`docs/IPC.md` says that an app name is matched against the app list; a name that begins like a positive
number is taken for an id (`StartAgreesWithResolve`). A header cut after one to three bytes counts as a
clean end of the stream (`DecodeCut`).

## Model
| member | source | states |
|---|---|---|
| JsonValue.SortedKeys | src/ipc/json.h:13-22 | the keys of an object in the order of std::map: all of them, strictly increasing bytewise |
| JsonText.ParseValue | src/ipc/json.cpp:239-255 | the parser is total and every success consumes text, so its mutual recursion ends on all input |
| JsonGrammar.ParseRendering | src/ipc/json.cpp:196-255 | blanks and the rendering of any well-formed syntax tree, followed by anything that does not continue a number, parse to the tree's meaning and leave exactly what followed |
| JsonSound.AcceptedIsRendering | src/ipc/json.cpp:81-256 | whatever the parser accepts is such a rendering, and the value returned is its meaning |
| JsonSound.ParseExactLanguage | src/ipc/json.cpp:266-273 | `parse` returns v for a text if and only if the text is, between blanks, a rendering of a tree that means v; numbers are given by the grammar and the decimal they denote |
| JsonRoundTrip.Utf8IsRfc3629 | src/ipc/json.cpp:96-112 | the bytes emitted for a code point are the only ones that the table in section 3 of RFC 3629 gives it |
| JsonRoundTrip.EscapedScalarIsUtf8 | src/ipc/json.cpp:114-161 | a \u escape whose digits, in either case, spell a code unit that is no surrogate becomes the UTF-8 bytes of that unit |
| JsonRoundTrip.EscapedPairIsUtf8 | src/ipc/json.cpp:114-161 | two escapes that spell a high and a low surrogate become the UTF-8 bytes of the scalar value UTF-16 gives them |
| JsonNumber.NumberTokenValue | src/ipc/json.cpp:173-187 | every number of the grammar is read to its last character as m * 10^(x - digits after the point), where its digits spell m and its exponent x, negated after a minus |
| JsonNumber.TokenReads | src/ipc/json.cpp:173-187 | the tokens the parser takes are exactly those of a grammar: minus or not, digits, point and digits or not, a digit somewhere, exponent or not |
| JsonRoundTrip.ParseRfcText | src/ipc/json.cpp:87-273 | every RFC 8259 text of a tree, its surrogates paired, parses to that tree: any white space, any legal escapes and number forms, members in any order |
| JsonRoundTrip.DumpIsText | src/ipc/json.cpp:37-78 | the printer's output is the rendering of one such syntax tree |
| JsonRoundTrip.ParseDump | src/ipc/json.cpp:260-273 | `parse(dump(v)) == v` for every tree of printable numbers, any strings and keys, any nesting |
| JsonRoundTrip.ParseDumpThen | src/ipc/json.cpp:37-78 | a printed value can be followed by any text that does not continue a number |
| JsonRoundTrip.LoneSurrogates | src/ipc/json.cpp:150-160 | a lone low surrogate is accepted as three bytes, a lone high one is rejected |
| JsonUnique.OneTree | src/ipc/json.cpp:81-256 | a text is the rendering of one tree at most, surrogates in any order |
| JsonRfc.AcceptedConforms | src/ipc/json.cpp:266-273 | an accepted text conforms to the grammar of RFC 8259 if and only if its tree has no raw control character and only section 6 numbers |
| JsonRfc.ConformingIsAccepted | src/ipc/json.cpp:147-161 | a conforming text is accepted if and only if every high surrogate in it is followed at once by a low one, and then with its tree's meaning |
| JsonRfc.RejectedText | src/ipc/json.cpp:150-158 | "\ud800" conforms and is rejected |
| JsonRfc.DefinedExactly | src/ipc/json.cpp:114-219 | the contents of a tree's rendering are defined (sections 4 and 8.2 of RFC 8259) exactly if it conforms, no surrogate in it is alone, and equal keys carry equal values |
| JsonRfc.AcceptedIsDefined | src/ipc/json.cpp:266-273 | an accepted text has defined contents exactly if its tree does, and then they are the value returned |
| JsonRfc.AcceptedNumbers | src/ipc/json.cpp:173-187 | every number of the parser's grammar is accepted, and conforms exactly if it has no leading zero and digits on both sides of a point |
| JsonRfc.MalformedNumbers | src/ipc/json.cpp:173-187 | `01`, `1.` and `-.5` are accepted and do not conform |
| JsonRfc.RawControls | src/ipc/json.cpp:132-169 | every raw control character is accepted in a string, where the grammar asks for an escape |
| JsonRfc.LoneSurrogateTexts | src/ipc/json.cpp:150-160 | a string of one lone surrogate conforms; a low one is accepted with undefined contents, a high one is rejected |
| JsonRfc.CharacterTables | src/ipc/json.cpp:87-93 | blanks, short escapes and number characters are those of sections 2, 7 and 6 of RFC 8259, by their codes |
| JsonRfc.PrintedIntegers | src/ipc/json.cpp:43-45 | the integers below 9e15 in magnitude are printed as decimal numerals without leading zeros |
| JsonMachine.EscapeTo | src/ipc/json.cpp:13-35 | appends the quoted, escaped string to the buffer and changes nothing else |
| JsonMachine.DumpTo | src/ipc/json.cpp:37-78 | appends the value's text to the buffer |
| JsonMachine.DumpText | src/ipc/json.cpp:260-264 | the printer as it runs returns `Dump` |
| JsonMachine.Parser.Ws | src/ipc/json.cpp:87-93 | moves the cursor past blanks and no further |
| JsonMachine.Parser.Hex4 | src/ipc/json.cpp:114-126 | four digits accumulated to their value, or `ok` cleared |
| JsonMachine.Parser.Unicode | src/ipc/json.cpp:147-161 | one escaped code point or surrogate pair, or `ok` cleared |
| JsonMachine.Parser.ParseStr | src/ipc/json.cpp:128-171 | the string loop yields the scanned string and the cursor after its quote |
| JsonMachine.Parser.Number | src/ipc/json.cpp:173-187 | the longest run of number characters, read whole or rejected |
| JsonMachine.Parser.Members | src/ipc/json.cpp:196-219 | the member loop builds the map, later keys overwriting |
| JsonMachine.Parser.Elements | src/ipc/json.cpp:221-237 | the element loop builds the list in order |
| JsonMachine.Parser.ParseOne | src/ipc/json.cpp:239-255 | one value, or `ok` cleared, exactly as `ParseValue` says |
| JsonMachine.ParseText | src/ipc/json.cpp:266-273 | the parser as it runs returns `Parse`, trailing text rejected |
| Frame.HeaderRoundTrip | src/ipc/frame.cpp:11-16 | up to 8 MiB the header is the four bytes of the length, the least significant first |
| Frame.NextByHeader | src/ipc/frame.cpp:21-33 | whoever wrote it, a header above 8 MiB is refused, one for more than is there is an error, and otherwise that many bytes follow |
| Frame.DecodeEncoded | src/ipc/frame.cpp:8-33 | written frames read back as the same list, then a clean end |
| Frame.EncodeInjective | src/ipc/frame.cpp:8-20 | two lists of payloads with the same bytes are the same list |
| Frame.CutPosition | src/ipc/frame.cpp:10-18 | where a cut falls: the whole frames before it and the bytes of the next one |
| Frame.DecodeCut | src/ipc/frame.cpp:22-33 | any cut reads as the whole frames before it, clean below four further bytes, an error once the header is complete |
| Frame.WriteFrame | src/ipc/frame.cpp:8-20 | all of a frame or a prefix of it and an error; an oversized payload writes nothing |
| Frame.ReadFrame | src/ipc/frame.cpp:22-33 | the next frame, a clean end or an error, as `Next` says |
| Server.Server.Handshake | src/ipc/server.cpp:20-42 | true exactly if the hello went out and the peer's first frame parses to an object whose "kind" is "hello" and whose "protocolVersion" is a number in [1, 2) |
| Server.AcceptedHellos | src/ipc/server.cpp:33-40 | exactly those frames are taken for a hello |
| Server.EngineMessages | src/ipc/server.cpp:21-51 | the hello and the events, field by field |
| Server.Server.Run | src/ipc/server.cpp:53-94 | for every input and every point at which the peer stops taking bytes: the output grows by the framed responses up to the first that does not fit, as far as the peer takes them; true exactly if all went out and the input ended cleanly |
| Server.ReceivedIsPrefix | src/ipc/server.cpp:53-94 | however the connection breaks, the launcher decodes a first part of the messages to be sent |
| Server.Server.Session | src/ipc/server.cpp:20-94 | the same for hello and responses; from a launcher that behaves and takes every byte, decoding the output gives the hello and the responses in turn |
| Server.ServeAnswers | src/ipc/server.cpp:58-91 | exactly one response per request frame, in order, echoing the id, with the handler's result or error in the state the earlier requests left; other frames yield nothing |
| Server.AnsweredFrames | src/ipc/server.cpp:60-62 | a frame is answered exactly if it parses to an object whose "kind" is "req" |
| Server.RequestIsHandled | src/ipc/server.cpp:61-77 | a launcher's request reaches the handler of its method with its parameters or an empty object; an unknown method leaves the state and is reported by name |
| Server.ResponsePrints | src/ipc/server.cpp:64-81 | an id that is an integer in [0, 9e15) is echoed unchanged and the response prints |
| Server.EndToEnd | src/ipc/server.cpp:20-94 | through dump, frames, decoding and parse the launcher receives one hello and then exactly the answers to its requests in order, each with the id that its request carried and its handler's result or error |
| Server.HelloIsHello | src/ipc/server.cpp:21-40 | the engine's hello passes the engine's own test of a hello |
| WriteLock.StepKeepsBytes | src/ipc/server.cpp:15-18 | every step of every writer keeps the wire at whole frames in lock order plus the holder's prefix |
| WriteLock.StepKeepsThread | src/ipc/server.cpp:15-18 | no frame of a thread is lost, repeated or reordered among its own |
| WriteLock.InterleavedFrames | src/ipc/server.cpp:44-51 | in every interleaving the wire decodes to the frames in lock order; at rest each thread's frames are all there in its call order |
| WriteLock.PartialIsHolders | src/ipc/frame.cpp:10-19 | at most one frame beyond the finished ones can be read, and then it is the lock holder's, complete |
| WriteLock.ThreadsMove | src/ipc/server.cpp:15-18 | a waiting thread can take a free lock, and its holder can finish its frame and let go |
| EventStream.ResponsesSurvive | src/ipc/server.cpp:44-92 | in every interleaving the messages received beside the events are those the session sent, in order |
| EventStream.SessionAmongEvents | src/ipc/server.cpp:15-94 | in every interleaving with events a launcher that sets them aside has the hello and then one answer per request, in request order, with its id |
| Xml.FindStartTagAt | src/net/gamestream_xml.cpp:14-24 | the first start tag with exactly that name, or none |
| Xml.DecodeEntitiesLoop | src/net/gamestream_xml.cpp:28-42 | the loop returns the text with the five entities decoded |
| Xml.XmlTextScan | src/net/gamestream_xml.cpp:53-63 | the index arithmetic returns `XmlText` |
| Xml.ToHexLoop | src/net/gamestream_xml.cpp:85-94 | the loop returns `ToHex` |
| Xml.FromHexLoop | src/net/gamestream_xml.cpp:96-106 | the loop returns `FromHex`, empty on odd length or any other character |
| Xml.FromToHex | src/net/gamestream_xml.cpp:85-106 | `from_hex(to_hex(b)) == b` for every byte string |
| Xml.FromHexIs | src/net/gamestream_xml.cpp:44-106 | decoding gives the bytes that the digits spell, in either case, and nothing if they spell none |
| Xml.ToHexSpells | src/net/gamestream_xml.cpp:85-94 | encoding spells the bytes in lower case |
| Xml.FirstTag | src/net/gamestream_xml.cpp:11-24 | the tag found is the first with exactly that name |
| Xml.EntityTable | src/net/gamestream_xml.cpp:28-42 | the five entities stand for their characters, any other ampersand for itself |
| Xml.NoText | src/net/gamestream_xml.cpp:53-63 | a tag that closes itself, has no end or is not closed holds no text |
| Xml.QuotedAttr | src/net/gamestream_xml.cpp:65-79 | an attribute is read in quotes of either kind |
| Markup.TextOfFields | src/net/gamestream_xml.cpp:53-63 | in any flat document the decoded text of the first field with the name, not of one whose name it begins |
| Markup.StatusOfResponse | src/net/gamestream_xml.cpp:65-79 | the status attribute of the root is read back |
| Markup.DecodeEscaped | src/net/gamestream_xml.cpp:28-42 | text escaped as section 4.6 of XML 1.0 allows decodes to the original bytes |
| AppList.AtoiDecimal | src/net/nv_applist.cpp:77-77 | a decimal id is read as its number |
| AppList.AtoiReads | src/net/nv_applist.cpp:77-88 | white space, a sign or none, the number that the digits spell; the rest is ignored |
| AppList.FindAppBody | src/net/nv_applist.cpp:23-39 | just past the next <App> tag, not one of a longer name |
| AppList.ParseAppList | src/net/nv_applist.cpp:62-84 | the scan ends on every text and returns `ParseApps` |
| AppList.ParseRendered | src/net/nv_applist.cpp:62-84 | for elements with any attributes, field order and extra fields, exactly the usable apps in order |
| AppList.UnclosedApp | src/net/nv_applist.cpp:69-73 | a last element without its end tag is read to the end of the text |
| AppList.KeepIs | src/net/nv_applist.cpp:77-81 | an app without a positive id or a title is dropped, every other kept |
| AppList.AppListRoundTrip | src/net/nv_applist.cpp:62-84 | every list of apps with positive ids and non-empty titles of any bytes is returned as it was rendered |
| AppList.StartAgreesWithResolve | src/client/stream_main.cpp:383-395 | the two resolvers agree on every app list if and only if the name does not start like a positive number or is all digits |
| AppList.StartMisreadsTitle | src/client/stream_main.cpp:385-386 | the name "7 Days" of app 9 starts app 7 |
| AppList.ResolvesToFirst | src/net/nv_applist.cpp:41-95 | a name resolves to the first app whose title is the same in any letter case, and to 0 without one |
| Chunked.DechunkEncoded | src/net/http_client.cpp:156-181 | decoding undoes every encoding of section 7.1 of RFC 9112: any chunks, sizes as numerals in any hex case with leading zeros, extensions, trailers |
| Chunked.DechunkCut | src/net/http_client.cpp:156-181 | every truncation decodes to the join of the chunks whose data is complete |
| Chunked.TerminatesUnlessWrapping | src/net/http_client.cpp:159-179 | where no announced size plus position leaves 64 bits, the loop ends with the decoder's result |
| Chunked.ShortSizesTerminate | src/net/http_client.cpp:162-178 | in particular with at most fifteen digits on every size line |
| Chunked.MachineDecodesEncoded | src/net/http_client.cpp:156-181 | the 64-bit loop ends on every encoding with the joined data |
| Chunked.NotAlwaysTerminating | src/net/http_client.cpp:164-178 | on a size line whose value wraps the loop returns to the same position for ever |
| Chunked.TerminatesExactly | src/net/http_client.cpp:159-179 | the 64-bit loop ends if and only if its run never comes back to a position, and then within one turn more than the body has bytes |
| Chunked.DechunkLoop | src/net/http_client.cpp:156-181 | on every body on which it ends, the loop returns what the 64-bit run halts with, and `Dechunk` of the body where nothing wraps |
| Chunked.ChunkedResponse | src/net/http_client.cpp:192-217 | a response with either blank line whose header names chunked coding in any letter case yields the joined data |
| Chunked.PlainResponse | src/net/http_client.cpp:192-217 | a response with either blank line and no such header yields the bytes after it |
| Chunked.ChunkedIs | src/net/http_client.cpp:207-211 | a response is chunked exactly if its head names the coding somewhere, in any letter case |
| Chunked.BareResponse | src/net/http_client.cpp:192-217 | a response without a blank line has an empty body |
| Chunked.NoResponse | src/net/http_client.cpp:192-199 | text that does not start with HTTP/ or has no space is no response |
| Chunked.LfHeadSplit | src/net/http_client.cpp:201-205 | a head with LF line ends is split from its body if and only if CR LF CR LF occurs nowhere in the response |
| Chunked.ParseHttpResponse | src/net/http_client.cpp:192-217 | the splitting as it runs returns `ParseHttp` where nothing wraps, and otherwise its status with what the run halts with |
| Pairing.NvPair | src/net/nv_pairing.cpp:30-110 | the run leaves exactly the requests, pin and result of `Handshake`, for every transport |
| Pairing.FinishPairing | src/net/nv_pairing.cpp:66-109 | stages three to five, continued from the first two |
| PairingEvidence.PairedOnEvidence | src/net/nv_pairing.cpp:41-109 | a run ends paired if and only if it has five requests, only the last over HTTPS, every reply is a success, the certificate of the first is pinned after it and returned, its key signed the secret received, and the digest received is that of the client's challenge, the certificate's signature and the secret |
| PairingEvidence.SecretOnlyOnEvidence | src/net/nv_pairing.cpp:71-97 | the client's secret is sent exactly if the replies before it pass both checks; the PIN is called wrong exactly if all but the digest was right, and another pairing in progress exactly if no certificate came |
| PairingEvidence.RunsLeaveClean | src/net/nv_pairing.cpp:37-107 | at most six requests; without success no certificate, and an unpair as the last request, once, exactly if the first reply was a success |
| PairingEvidence.RequestsSayExactly | src/net/nv_pairing.cpp:36-104 | every request letter by letter, from the draws, the PIN, the identity and the replies |
| PairingHost.HexPage | src/net/gamestream_xml.cpp:81-83 | a page with a flag and a hex field is accepted and yields the bytes |
| PairingHost.HostAccepts | src/net/nv_pairing.cpp:66-101 | the hash sent in stage three is the one an honest host computes from the secret revealed in stage four |
| PairingHost.PairingCompletes | src/net/nv_pairing.cpp:30-110 | with an honest host and its PIN: always paired, with the host's certificate, for every draw and both generations |
| PairingHost.LawsAreConsistent | src/net/pairing_crypto.h:1-43 | the laws assumed of the cryptography can hold together |
| IdentityStore.WriteOutcomes | src/net/identity_store.cpp:41-57 | the outcomes of `write_file` are exactly: success with the target replaced by any prefix of the data, failure with it kept or gone, a stop with any of these |
| IdentityStore.OneGenerationExactly | src/net/identity_store.cpp:76-104 | throughout every history a non-empty uniqueid stands with the certificate and key generated with it, if and only if no call puts it in place with one of its three files short |
| IdentityStore.IdentityIsStable | src/net/identity_store.cpp:76-104 | every later call of every continuation returns the identity a call returned, if and only if it was loaded or every byte of its three files is stored, which reading them back shows |
| IdentityStore.LostUidChangesIdentity | src/net/identity_store.cpp:46-51 | a uniqueid lost at the close: two successful calls return two identities |
| IdentityStore.LostCertificateMixes | src/net/identity_store.cpp:46-51 | a certificate lost at the close and a stop in the next call: the certificate of one generation is returned with the key of another |
| IdentityStore.CreatedFiles | src/net/identity_store.cpp:95-103 | on an empty directory a smooth call leaves the three named files and returns their contents |
| IdentityStore.OutcomeIs | src/net/identity_store.cpp:92-98 | without a stored identity a call fails exactly if generation or a write fails |
| IdentityStore.Store.WriteFile | src/net/identity_store.cpp:41-57 | open, write, close, rename, remove, rename, each of which may fail or be the last, change the target as `WriteOutcomes` lists; success leaves no temporary file, and no other file changes |
| IdentityStore.Store.LoadOrCreate | src/net/identity_store.cpp:76-104 | the call as it runs is `Load` |
| HostRegistry.ReadWritten | src/net/identity_store.cpp:110-137 | what is written to the file is what is read |
| HostRegistry.FileIsEntries | src/net/identity_store.cpp:127-137 | the file is an array of objects with address, name and serverCert, in order |
| HostRegistry.EntryReads | src/net/identity_store.cpp:110-125 | any entry is read by these keys; one without an address is passed over |
| HostRegistry.UpsertMeans | src/net/identity_store.cpp:141-155 | addresses stay unique, the order is kept, the entry is found, every other lookup is unchanged |
| HostRegistry.RemoveMeans | src/net/identity_store.cpp:168-177 | the address is gone, every other lookup is unchanged, and the size tells whether it was there |
| HostRegistry.RegistryIsMap | src/net/identity_store.cpp:141-177 | over every sequence of operations from an absent file the registry stands for the map they make |
| HostRegistry.RepliesAreMaps | src/net/identity_store.cpp:141-177 | and every reply is the map's |
| HostRegistry.HostStore.Read | src/net/identity_store.cpp:110-125 | the loop returns `ReadHosts` |
| HostRegistry.HostStore.UpsertHost | src/net/identity_store.cpp:141-155 | the call as it runs |
| HostRegistry.HostStore.FindOne | src/net/identity_store.cpp:157-162 | the first entry with the address |
| HostRegistry.HostStore.RemoveHost | src/net/identity_store.cpp:168-177 | the call as it runs |
| ClientTrust.TrustAfterAdding | src/host/client_trust.cpp:39-72 | after adding, a certificate is trusted exactly if it was or is the one added |
| ClientTrust.AddingIsIdempotent | src/host/client_trust.cpp:52-72 | adding it again under any name and id returns the identical text |
| ClientTrust.FieldsSurvive | src/host/client_trust.cpp:15-72 | every other field of the state and of its root, and every device, survives |
| ClientTrust.TextSurvives | src/host/client_trust.cpp:15-72 | over the parsed texts: every other field of the state and of its root is there with its value, and no other is new, from any text |
| ClientTrust.DevicesAfterAdding | src/host/client_trust.cpp:52-72 | the devices are the old ones, and one more unless one has the certificate: an object of exactly name, cert, uuid and enabled "true" |
| ClientTrust.TrustedMeansListed | src/host/client_trust.cpp:39-50 | trusted exactly if not empty and the certificate of a listed device |
| ClientTrust.HasTrustedClient | src/host/client_trust.cpp:39-50 | the search as it runs is `HasTrusted` |
| ClientTrust.AddTrustedClient | src/host/client_trust.cpp:52-72 | the update as it runs is `AddTrusted` |
| HostApps.CatalogRoundTrip | src/host/host_apps.cpp:58-101 | parsing the serialized catalogue returns the list, empty fields included |
| HostApps.FileIsEntries | src/host/host_apps.cpp:58-77 | the file is an object with an empty env and the apps' entries, field by field, empty strings left out |
| HostApps.EntryReads | src/host/host_apps.cpp:79-101 | any entry is read by its keys, with the defaults of missing ones; without a name it is passed over |
| HostApps.DiffCounts | src/host/host_apps.cpp:131-156 | the three counts are the names only in one, only in the other, and in both with different entries |
| HostApps.DiffBalance | src/host/host_apps.cpp:131-156 | previous size plus added equals next size plus removed |
| HostApps.DiffZeroIsEqual | src/host/host_apps.cpp:131-156 | the diff is zero exactly if both are the same map from names |
| HostApps.SelfDiff | src/host/host_apps.cpp:131-156 | a list differs from itself exactly if it gives one name two meanings |
| HostApps.RepublishIsQuiet | src/host/host_main.cpp:132-147 | publishing a list twice writes the same file and reports no change the second time exactly if no name in it stands for two different apps |
| HostApps.SyncReports | src/host/host_main.cpp:132-147 | publishing reports the change from what the file held, and all as added without one |
| HostApps.SerializeApps | src/host/host_apps.cpp:58-77 | the loop returns `Serialize` |
| HostApps.ParseAppsJson | src/host/host_apps.cpp:79-101 | the loop returns `ParseCatalog` |
| HostApps.DiffApps | src/host/host_apps.cpp:131-156 | the counting loops return `Diff` |
| StreamSession.StepKeepsInv | src/client/stream_session.cpp:109-286 | every step of the control thread, the worker and the library's callbacks on either build keeps the invariant |
| StreamSession.ConnectionsAlternate | src/client/stream_session.cpp:213-281 | in every interleaving each opened connection is closed exactly once before the next |
| StreamSession.StopLeavesNothing | src/client/stream_session.cpp:273-286 | when `stop` returns there is no worker, connection, sink, pointer or live renderer |
| StreamSession.CallbacksSeeLiveRenderers | src/client/stream_session.cpp:65-91 | in every interleaving with the library's threads, a callback has from its test of the pointer until it returns a non-null pointer to a renderer not yet cleaned up |
| StreamSession.CallbacksRun | src/client/stream_session.cpp:65-91 | while the library connects or the connection is up, callbacks can begin |
| StreamSession.StopIsNotStuck | src/client/stream_session.cpp:273-278 | while `stop` waits for the worker, the worker or a callback that it waits for can move |
| StreamSession.CrashExactly | src/client/stream_session.cpp:122-126 | `start` assigns over a joinable thread exactly if in the history a worker ended by itself and since then none was joined, which only `stop` does, or started |
| StreamSession.StartAfterStopIsSafe | src/client/stream_session.cpp:109-127 | without such a worker the assignment spawns a thread and nothing is connected yet |
| StreamSession.SecondStartCrashes | src/client/stream_session.cpp:265-269 | a failed connection and a second `start` reach it |
| FrameHandoff.StepConserves | src/client/video_renderer.cpp:117-204 | every step keeps each frame freed once or held in one place |
| FrameHandoff.NothingLeaks | src/client/video_renderer.cpp:201-205 | after cleanup every frame was freed exactly once |
| FrameHandoff.ShownInOrder | src/client/video_renderer.cpp:140-197 | shown frames are an in-order selection of published ones; shown exceeds decoded by at most the publication not yet counted |
| FrameHandoff.ShownBeforeCounted | src/client/video_renderer.cpp:144-145 | the bound is met: a frame can be shown before it is counted |

## Left out
- Dump: numbers other than integers below 9e15 in magnitude, because their text is the C library's `%.17g`; the round trips are stated for trees without them.
- JsonText.ParseValue: does not model the rounding and overflow of `strtod` to a double, nor the stack depth of deep nesting; numbers are exact.
- JsonRfc.Conforms: raw bytes from 0x80 on are taken as they stand; that they form UTF-8 (section 8.1 of RFC 8259) is asked neither by the parser nor here.
- JsonValue.Value: `set` and `push` change a tree through references in the source; here trees are values, so aliasing between references into one tree is not captured.
- Server.CastUint64: the C++ cast is undefined outside the range of uint64_t; the results assume ids in [0, 9e15).
- AppList.Atoi: exact where the C function would overflow an int.
- IdentityStore: two processes writing at once, and a failing creation of the directory other than through the open that then fails.
- HostRegistry: failing writes of hosts.json; only histories of successful writes are covered.
- StreamSession, FrameHandoff: data races on `g_sink` and the memory model; steps are atomic, and each file's threads are states of one machine rather than objects.
- OpenSSL, SDL, FFmpeg, Opus and the moonlight library: foreign code, present only as abstract functions or free choices.
- Sockets, pipes and TLS: the transport is a byte sequence or a callback.
- Stream settings checks, launch queries, argument parsing, the Sunshine child process, window, gamepad and statistics: not modelled; straight-line glue.
