# flar: verified model

flar runs coding agents in a bubblewrap sandbox. This project models four of its
components in Dafny and proves what they promise.

- **The private Secret Service** (`secretsvc.go`): a D-Bus server for one client. `Values` and
  `Signatures` give the wire format of the D-Bus Specification ("Type System", "Marshaling") as a
  marshaller without backpatching and a strict decoder, inverse to each other. `Encoder` is the
  program's mutable encoder, `Messages` its message encoder, `Incoming` its frame reader, header
  walk and body decoders, `Dispatch` the answers, `Service` the SASL handshake and the connection loop.
  `Answers` writes out what a client decodes for each call, and `Golden` a first exchange byte by byte.
- **Sandbox planning** (`container.go`): the walk over OpenSSL includes (`OpensslIncludes`,
  `OpensslMounts`, `Paths`), the seccomp filter with an interpreter for classic BPF (`Seccomp`), and the argument
  serializer and redactor (`BwrapArgs`).
- **The proxy's destination check** (`proxy.go`): `Destination`, with the address ranges of section 3 of
  RFC 1918, section 3 of RFC 4193 and section 7 of RFC 6598.
- **Scoped stores** (`kimi.go`, `agy.go`, `config.go`): `Disk` is a directory tree with write permissions
  in which any operation may fail half-way, `TreeCopy` the two recursive copies. Of a Kimi store
  `KimiStore` is the attribution of sessions, `KimiSeed` the seed and the store's life, `KimiIsolation`
  whose sessions are in it, `KimiAttribution` and `KimiContents` all that is in a fresh one, `KimiRetries`
  interrupted seeds, and `KimiCompletion` when a seed succeeds, with concrete hosts. `AgyStore` is agy's attribution.

How the program's form is kept: a Go closure that drives the encoder is the list of the calls it makes
(`Encoder.Call`); slices, maps and sets that the program grows are fields or locals that methods
reassign; every method is proved equal to a function on values, and the properties are lemmas about
those functions. A range over a Go map is a loop that takes an arbitrary remaining key.
Go strings are byte strings. Lengths are truncated to 32 bits (8 for signatures) where the program
truncates them; lemmas about decoding assume the message fits in 2^32 bytes.

Two places where the code and its comments differ, modelled as the code has them: `dispatch` is
documented to return nil for calls without a reply, but every call gets one; the flag byte of replies is
1 whatever the call's flags are.

Three promises the code keeps only under a condition, stated with an input for which it fails:

- The include walk is to find every include target. It is depth-first with a visited set, so its depth
  limit is not a limit on the distance from the configuration files. `ShortChainsLoseNothing` gives a
  condition on the host under which nothing is lost: no long chain of paths leads on. `NeverRefusesIff`
  shows that over all orders of include targets and configuration files it is exact for the walk's refusals
  where only includes lead on; `DirectoryCanSave` is a host with a directory, and `OrderCanSave` one
  order of listing, that do without it. `VisitsEverythingIff` is exact for what a given run visits; for
  what it mounts its condition is sufficient, since a file is mounted before it is refused.
  `DepthLimitLosesTarget` is a chain that loses a target.
- A Kimi store is to keep other projects' sessions invisible. The index lines of the project are trusted
  to list its own sessions, and `sessions/` itself passes their check (`RelOfExact`).
  `OthersInvisibleIff` is the exact condition, `StrayLineLetsIn` a host for which it fails.
- An interrupted seed is to be made good by the next launch. `RetriesCleanIff` is the exact condition for
  hosts on which an undisturbed seed succeeds, `SeedsReliablyIff` the whole one for a configuration.
  `MarkedConfigStopsSeeding` and `ReadOnlyConfigNeverSeeds` are configurations for which an interruption
  does lasting harm, `ReadOnlyRootNeverSeeds` is one for which every launch fails.

## Model

| member | source | states |
|---|---|---|
| Bytes.ClearLowBits | secretsvc.go:175 | Clearing the low two or three bits of a 64-bit offset is rounding it down to a multiple of four or eight |
| Signatures.ParseSigOfAll | secretsvc.go:306-398 | Every list of complete D-Bus types is recovered from its signature string, so a reply's declared signature determines the types of its body |
| Signatures.SigOfParsed | secretsvc.go:306-398 | The converse: a string that parses as one complete type is exactly that type's signature |
| Values.DecodeMarshal | secretsvc.go:408-453 | A marshalled value, whatever bytes surround it and at whatever offset, decodes to itself under its type and is consumed exactly; the decoder checks alignment, zero padding, terminators and array lengths |
| Values.DecodeSound | secretsvc.go:408-453 | The decoder accepts nothing but marshalled values: what it returns has the type asked for and the bytes consumed are its marshalled form |
| Values.MarshalShift | secretsvc.go:519-523 | The bytes of a value depend on its offset only modulo eight, so a body reads the same at any body start |
| Encoder.Enc.Pad | secretsvc.go:408-412 | Appends zero bytes up to the next multiple of the alignment, and nothing else |
| Encoder.Enc.U32 | secretsvc.go:414-419 | Appends padding and the little-endian word |
| Encoder.Enc.Str | secretsvc.go:420-425 | Appends a padded length, the bytes and a NUL |
| Encoder.Enc.Sig | secretsvc.go:426-430 | Appends a one-byte length, the bytes and a NUL |
| Encoder.Enc.Ay | secretsvc.go:431-434 | Appends a padded length and the bytes |
| Encoder.Enc.Variant | secretsvc.go:435-440 | Appends the signature and then what the closure appends |
| Encoder.Enc.Array | secretsvc.go:444-453 | Backpatching is exact: for closures nested to any depth the length word ends up counting the element bytes after the alignment padding, and every byte that was in the buffer before stays as it was |
| Encoder.Enc.Run | secretsvc.go:450-452 | A closure appends, call after call, exactly what its calls append at their offsets |
| Encoder.CallsMarshal | secretsvc.go:408-479 | For any nesting of arrays, structs, entries and variants, the encoder calls that write a value emit exactly the value's marshalled form |
| Messages.EncodeMessage | secretsvc.go:491-526 | The buffer with its two backpatched lengths is the frame of the reply: fixed header, a(yv) field array with REPLY_SERIAL and the optional ERROR_NAME and SIGNATURE, padding, body |
| Messages.FrameDecodes | secretsvc.go:491-526 | A frame decodes, under the signature its own header declares, to the fields and values it was made from, with nothing left over |
| Incoming.ParseField | secretsvc.go:218-249 | One turn of the walk's loop is one step of the walk on values: indexing stops at the message's length, slicing reads on into spare capacity and stops at its end |
| Incoming.ParseHeaderFields | secretsvc.go:208-251 | The loop is the walk on values from offset 16 to the end of the field array, for any spare capacity |
| Incoming.StepBeyondIff | secretsvc.go:212-248 | A field inside the message panics exactly when its signature, or the text it holds, is declared to end beyond the capacity; no index it reads is ever out of range |
| Incoming.WalkFaultsIff | secretsvc.go:208-251 | The walk of a whole message panics if and only if it comes to a field that declares too much |
| Incoming.TooLongFaults | secretsvc.go:222-226 | A concrete call of 24 bytes for which it does |
| Incoming.WalkMarshalled | secretsvc.go:208-251 | On any well-formed fields in any order the walk stays inside the message, stores exactly the fields before the first type it does not know and, when there is none, ends exactly at the end of the array |
| Incoming.AssignInAnyOrder | secretsvc.go:233-240 | Path, interface and member come out the same for every order of fields with distinct codes, and stay as they were when no field carries them |
| Incoming.ReadFrame | secretsvc.go:178-204 | A well-formed frame is read back whole wherever the stream goes on; nothing after it is consumed |
| Incoming.ReadFails | secretsvc.go:178-200 | When a read fails before the walk, in numbers: end of input, fewer than sixteen bytes, a first byte other than 108, or fewer bytes than the two lengths in the header add up to; and what is left unread |
| Incoming.BodyObjPaths | secretsvc.go:256-279 | On arbitrary bytes the loop terminates, stays in bounds and yields the paths of the decoder on values |
| Incoming.ObjPathsOfBody | secretsvc.go:256-279 | The path decoder inverts the marshalling of any list of object paths, at any body start and with any bytes after it |
| Incoming.LastPath | secretsvc.go:256-279 | Where a message ends inside a path: it is read exactly when as many bytes are left as its length says, terminator or not; an array of length zero holds none |
| Incoming.BodyStrings | secretsvc.go:282-299 | On arbitrary bytes the loop terminates, stays in bounds and yields at most n strings |
| Incoming.StringsWritten | secretsvc.go:282-299 | The string decoder inverts the marshalling of any list of strings |
| Incoming.LastString | secretsvc.go:282-299 | Where a message ends inside a string: it is read exactly when as many bytes are left as its length says |
| Dispatch.Reply | secretsvc.go:482-484 | A METHOD_RETURN frame with the given signature and what the closure writes |
| Dispatch.ErrorReply | secretsvc.go:486-488 | An ERROR frame that carries the name and one string |
| Dispatch.CallsOfSecret | secretsvc.go:464-470 | The secret struct's calls are those of the value (session, parameters, value, content type) of type (oayays) |
| Dispatch.CallsOfSecrets | secretsvc.go:473-479 | The dictionary's calls are those of a one-entry map from the item to its secret |
| Dispatch.SecretSignatures | secretsvc.go:347-361 | The literal signatures (oayays), a{o(oayays)} and ao are those of the values' types |
| Dispatch.Choose | secretsvc.go:306-398 | For every served call the literal signature and the closure of its branch declare and write exactly the intended values; all other calls are unhandled |
| Dispatch.ChooseService | secretsvc.go:323-350 | The same for the calls to the Secret Service interface; what is intended is written out in Answers.ServiceAnswers |
| Dispatch.PropertyCalls | secretsvc.go:379-396 | The variant written for a property carries that property's value under its own signature |
| Dispatch.Dispatch | secretsvc.go:305-402 | Every call is answered with the frame of its intended answer, which the lemmas of Answers write out |
| Dispatch.ReplyDecodes | secretsvc.go:305-402 | For every call and every secret the reply decodes under its declared signature to the intended values, consuming the whole body, and names the call it answers and the error if there is one |
| Dispatch.SecretServed | secretsvc.go:345-363 | GetSecret and GetSecrets give the secret back byte for byte |
| Answers.BusAnswers | secretsvc.go:306-315 | As its client decodes it, each call to org.freedesktop.DBus: Hello and GetNameOwner are answered with the string ":1.1", AddMatch and RemoveMatch with nothing, any other member with the error UnknownMethod; bytes 0 to 3, the header and fields 4, 5 and 8 of every reply are given as numbers |
| Answers.PeerAnswers | secretsvc.go:316-322 | Each call to org.freedesktop.DBus.Peer: Ping gets nothing, GetMachineId the 32 digits, any other member the error |
| Answers.ServiceAnswers | secretsvc.go:323-350 | Each call to org.freedesktop.Secret.Service with its values and signature written out: SearchItems gives item 1 as unlocked and nothing as locked, Unlock and Lock the paths of the call and no prompt, OpenSession the session, ReadAlias the collection, GetSecrets item 1 with the secret; any other member gets the error |
| Answers.ObjectAnswers | secretsvc.go:351-371 | The calls to the collection, the item and the session: SearchItems gives item 1, GetSecret the secret in its structure, Close nothing; any other member gets the error |
| Answers.PropertyAnswers | secretsvc.go:372-397 | Get for Collections, Locked, Label and any other property, by the second of the two strings in the body, with the variants written out; any other member gets the error |
| Answers.OtherInterfaces | secretsvc.go:400-402 | A call to any interface but those seven gets the error UnknownMethod and the text "no such method" with its interface and member |
| Service.SaslServer | secretsvc.go:114-145 | The handshake loop writes the responses and leaves the unread bytes of the handshake on values |
| Service.RespondsWithOneLine | secretsvc.go:129-143 | Every response is one complete line, and only a line that starts with AUTH EXTERNAL is answered with OK |
| Service.RespondsExactly | secretsvc.go:127-143 | The response to every line, to the byte, whatever number of carriage returns ends it: OK and the identifier for AUTH EXTERNAL, REJECTED for any other AUTH and for CANCEL, else ERROR |
| Service.BeginsIff | secretsvc.go:127-138 | What trims to BEGIN is the bytes of BEGIN followed by any number of carriage returns, and nothing else |
| Service.SaslBegins | secretsvc.go:122-144 | Each line before the first that is BEGIN and carriage returns gets exactly one response; nothing after that line is consumed |
| Service.SaslBegun | secretsvc.go:122-144 | The converse: a successful handshake consumed exactly such lines |
| Service.SaslSucceedsIff | secretsvc.go:114-145 | On bytes: the handshake succeeds exactly on a NUL, complete lines none of which is BEGIN followed by carriage returns alone, and then such a line; it has written one response for each earlier line and leaves everything after the line feed |
| Service.SaslBroken | secretsvc.go:114-126 | Nothing is answered before the NUL; a handshake that breaks off without BEGIN has written one response for each complete line, and nothing more is written |
| Service.ReadMessage | secretsvc.go:178-204 | Result and remaining input are those of one read on values, short reads and a wrong endianness included |
| Service.ServeConn | secretsvc.go:76-107 | What arrives at the peer is the session's output, cut off where a write first fails; how the connection ends, by a failed handshake, read or write or by the panic of a header fault, is stated exactly |
| Service.StreamRead | secretsvc.go:86-96 | Any sequence of well-formed messages followed by anything is read back message by message, and reading goes on with what follows |
| Service.ReplyAt | secretsvc.go:85-105 | The i-th reply answers the i-th call and bears the serial i + 1 places after the start, wrapping at 2^32 |
| Service.RunReplies | secretsvc.go:76-107 | A whole run: after any handshake, any messages and any unreadable end, one reply for each METHOD_CALL, in order, and none for anything else |
| Service.RunReplyDecodes | secretsvc.go:97-102 | In a run of fewer than 2^32 calls the i-th reply decodes to the answer of the i-th call, with serial i + 1 and that call's serial as REPLY_SERIAL |
| Service.RunEnds | secretsvc.go:76-107 | How such a run ends: with the failed write of a reply when the peer takes fewer chunks than there are responses and replies, else with the error of the read after the last message |
| Service.ReplyReadBack | secretsvc.go:491-526 | Each reply is one frame for the program's own reader, which finds the type and serial it was given |
| Service.HeaderRoundTrip | secretsvc.go:178-251 | Reading a message gives back its type and serial, the text of field 1 as path, of field 2 as interface and of field 3 as member, whatever the order of its fields and whatever follows, with bodyStart on the first body byte |
| Service.HeaderAbsent | secretsvc.go:202-240 | Path, interface and member are empty when no field has the code 1, 2 or 3 |
| Service.CallsInOrder | secretsvc.go:93-96 | Exactly the messages of type 1 are served, in the order they come in |
| Service.UnlockEcho | secretsvc.go:330-336 | A call to Unlock or Lock that encodes any list of paths is answered with those paths and no prompt |
| Service.PropertyServed | secretsvc.go:372-396 | A Get call encoded with an interface, a property name and anything after them is answered with the value of that property, written out |
| Golden.HelloRead | secretsvc.go:178-251 | A Hello call of 96 bytes, given byte by byte, is read with its path, interface and member, wherever the stream goes on |
| Golden.HelloReplyGolden | secretsvc_test.go:20-38 | The reply to it, given byte by byte: 41 bytes with its two lengths, fields 5 and 8 and the string |
| Golden.FirstExchange | secretsvc_test.go:54-64 | A whole first exchange in bytes: NUL, AUTH EXTERNAL, BEGIN with CR LF and the call give the OK line and that reply, in this order and nothing else |
| OpensslIncludes.PathCovered | container.go:276-287 | For clean absolute paths and roots, with or without a slash at a root's end: true exactly when the elements of some root other than the root directory are the first elements of the path |
| OpensslIncludes.UnderIff | container.go:276-287 | Containment is by whole elements: a path is inside a root exactly when the root has elements and they are the first of the path's |
| OpensslMounts.NeighboursNotCovered | container_test.go:542-558 | Of the roots /usr and /etc/ssl/: /usr-local/x and /etc/sslsomething are inside neither, /usr and /etc/ssl/openssl.cnf are inside one |
| OpensslIncludes.Walker.Add | container.go:168-177 | The in-place add is the add on values |
| OpensslIncludes.Walker.Walk | container.go:185-221 | The in-place walk is the walk on values; it terminates with measure 9 minus depth |
| OpensslIncludes.OpensslIncludePaths | container.go:162-233 | The result is the output of the walk on values |
| OpensslIncludes.WalkDone | container.go:185-221 | Every path a call visits first is dealt with completely: its existing include targets are mounted and all it leads to is visited or was refused for depth |
| OpensslIncludes.IncludesCovered | container.go:162-233 | Every existing configuration file and every existing include target of every parsed file is in the output or lies under a bound path or an output directory |
| OpensslMounts.TargetsMounted | container.go:162-233 | The same by path elements: every existing configuration file and every existing include target of every parsed file is an output, or inside a bound path or an output directory |
| OpensslMounts.ResolvesByElements | container.go:194-213 | An absolute target is itself, a relative one is taken from the directory of the file that names it, one that begins with .. from the directory above; an entry is in its directory |
| OpensslIncludes.VisitsEverythingIff | container.go:142-145 | Read off a run: everything transitively reachable, cycles included, was visited if and only if every path refused for its depth was visited by another way |
| OpensslIncludes.ReachableIncludesCovered | container.go:162-233 | Then the include targets of every reachable file are mounted |
| OpensslIncludes.ShortChainsLoseNothing | container.go:142-145 | A condition on the host alone: if no chain of ten different paths leads on from an existing configuration file, then whatever is bound nothing is refused, everything reachable is visited and every include target of a reachable file is mounted |
| OpensslMounts.ShortChainsMounted | container.go:142-145 | The same by path elements: without a chain of ten every existing include target of every reachable file is an output, or inside a bound path or an output directory |
| OpensslIncludes.NeverRefusesIff | container.go:185-221 | Over all permutations of the configuration files and of each file's include targets, with directories listed as they are and anything bound: without such a chain nothing is refused; if nothing is ever refused there is no such chain of includes; so where no directory with entries comes up it is an if and only if |
| OpensslIncludes.DirectoryCanSave | container.go:194-200 | With a directory in between a chain of ten may never be refused: a concrete host, for every such permutation |
| OpensslIncludes.OrderCanSave | container.go:185-221 | It is not necessary for one given order: a chain of ten files, walked from its fifth first, in which nothing is refused |
| OpensslIncludes.OutputsIrredundant | container.go:158-161 | Outputs are pairwise distinct, exist, are reachable, never lie under a bound path and never under a directory output before them |
| OpensslMounts.OutputsApart | container.go:158-161 | By path elements: no output is inside a bound path, and none inside a directory put out before it |
| OpensslIncludes.OutputsAbsolute | container.go:160-161 | Outputs are absolute when the configuration paths are |
| OpensslIncludes.DepthLimitLosesTarget | container.go:142-145 | A chain of eleven files whose last, an existing include target, is not mounted |
| Paths.JoinAbs | container.go:207-212 | Joining below an absolute path gives an absolute path |
| Seccomp.TiocstiSeccompFilter | container.go:416-455 | The bytes are the encoding of the eleven instructions, which is given byte by byte |
| Seccomp.DecodeEncodeAll | container.go:406-425 | Decoding the bytes of any program gives back its instructions |
| Seccomp.ProgramChecked | container.go:427-438 | All jumps go forward and stay inside and the last instruction returns |
| Seccomp.FilterExact | container.go:385-456 | Run on the emitted bytes for every architecture, system call and argument, the filter returns EPERM exactly for ioctl (16 on x86_64, 29 on aarch64) with the low half of its second argument TIOCSTI, else ALLOW |
| Seccomp.FilterVerdict | container.go:385-456 | The same in numbers, for the 88 bytes written out: 327681 exactly for system call 16 of architecture 3221225534 or 29 of 3221225655 with 21522 in the low half of the second argument, else 2147418112 |
| BwrapArgs.EncodeBwrapArgs | container.go:1235-1242 | Each argument is followed by one NUL |
| BwrapArgs.SplitEncodeIff | container.go:1233-1242 | Splitting at the NULs recovers the list exactly when no argument contains a NUL |
| BwrapArgs.RedactedArgs | container.go:1260-1275 | The loop computes the redaction on values, of the same length as the list |
| BwrapArgs.RedactFlatten | container.go:1257-1275 | On lists whose other arguments are not the --setenv token, redaction hides the value of every variable that is not listed as visible and changes nothing else |
| BwrapArgs.SettingInDump | container.go:1244-1275 | A --setenv anywhere in a list keeps its name; its value shows for seventeen names, written out, and is replaced by <redacted> for all others; what follows is redacted by itself |
| BwrapArgs.HiddenValuesDoNotShow | container.go:1244-1259 | Lists that differ only in hidden values have the same dump |
| BwrapArgs.RedactIdempotent | container.go:1260-1275 | Redacting any list twice changes nothing more |
| Destination.CgnatInterval | proxy.go:280-283 | The mask test is the interval 100.64.0.0 to 100.127.255.255 |
| Destination.LocalBlocksExact | proxy.go:290-294 | An IPv4 address, plain or mapped, is local or private exactly in the eight listed intervals |
| Destination.LocalBlocks6Exact | proxy.go:290-294 | An IPv6 address is exactly when unspecified, loopback, in fc00::/7 or fe80::/10, or multicast |
| Destination.LoopbackExact | proxy.go:254-259 | An address is IPv4 in four octets or mapped, and loopback exactly in 127.0.0.0 to 127.255.255.255 or as ::1 |
| Destination.PortIff | proxy.go:237-240 | A port is accepted exactly when it is a number from 1 to 65535 in decimal, with zeros or a plus sign in front or without |
| Destination.PortAllowed | proxy.go:297-304 | True exactly for a listed port |
| Destination.ResolveAndCheck | proxy.go:236-278 | Accepts exactly when the port is valid, the name resolves to some address, no address that is not loopback is local or private, and the port is allowed if any address is loopback; dials the first IPv4 loopback, else the first loopback, else the first address |
| Destination.AcceptsInAnyOrder | proxy.go:254-267 | Acceptance does not depend on the order or repetition of the addresses |
| Disk.Volume.Do | config.go:331-341 | One operation, with the permissions it needs and creates and the states a failure can leave behind |
| Disk.RetryIsClean | kimi.go:76-91 | One more run after any others, however far each got, ends as the first clean run, for all such runs, if and only if the clean run leaves no file it wrote read-only |
| Disk.SealedBlocks | config.go:331 | Whatever is run, a read-only file stays one, and a run that has to write it fails |
| Disk.LockedStays | config.go:405 | Whatever is run, a read-only directory, the root included, stays one and gets no new entry |
| TreeCopy.CopyFile | config.go:319-342 | A file that can be opened is written, a new one with the permission of its source; any other ends the work |
| TreeCopy.CopyDirRel | config.go:399-435 | The recursion carries out the planned operations up to the first that fails |
| TreeCopy.CopyDirExcept | config.go:395-397 | The same from the top, a missing source included |
| TreeCopy.CopyDir | config.go:438-476 | CopyDir, written separately, does what CopyDirExcept does with nothing to leave out |
| TreeCopy.CopyMeaning | config.go:393-435 | On success the destination holds below dst exactly the regular files and directories no part of whose path is to be left out, with the source's permission where nothing was before and the old one elsewhere; every other path is as it was |
| TreeCopy.CopiedItem | config.go:399-435 | Item by item, where nothing was before: a regular file becomes a file of the same content and permission, a directory one of the same permission, anything else and whatever is at or below a path to be left out is not there |
| TreeCopy.CopySucceedsIff | config.go:399-435 | A copy that nothing interrupts succeeds if and only if everything in the tree that is not left out can be read and fits: files over files that can be written, directories over directories, new entries into directories that can be written |
| TreeCopy.CopyThrough | config.go:393-435 | Copying a readable fresh copy on succeeds wherever copying the original would, and leaves the same tree there |
| ByteOrder.SortKeys | kimi.go:159-163 | Whatever order the keys come in, the result is the set's one ascending enumeration |
| ByteOrder.LessIff | kimi.go:163 | The order is that of the first byte in which two strings differ, a string before those it begins |
| ByteOrder.AscendingUnique | kimi.go:159-163 | A set has only one ascending enumeration |
| Lines.ScanUnlines | kimi.go:216-218 | Scanning what was written line by line gives the lines back, a trailing carriage return aside |
| Lines.ScanExact | kimi.go:216-218 | The scanner in full: all lines that end with a line feed, a last one without, and nothing from the first line of 8388608 bytes or more on |
| Lines.DropsOneCr | kimi.go:216-218 | Of the carriage returns at the end of a line exactly one is dropped |
| KimiStore.KimiHostIndex | kimi.go:209-227 | The last line for each session id of the project, from the lines that fit the scanner's buffer |
| KimiStore.IndexSound | kimi.go:205-227 | Every kept line decodes to its own session id and the project |
| KimiStore.IndexExact | kimi.go:217-227 | Completeness: of the lines that decode to an id and the project exactly the last is kept, and an id without one is not |
| KimiStore.PrimarySessions | kimi.go:104-132 | The nested loops compute the primary attribution on values, which KimiAttribution.AttributionExact gives in full |
| KimiStore.AttributeSessions | kimi.go:96-154 | Both attributions, the primary taking precedence; KimiAttribution.AttributionExact says what they are |
| KimiAttribution.AttributionExact | kimi.go:96-154 | Attribution in full: every session directory with a readable state.json that decodes to the project is attributed, the last workspace directory counting where names repeat; any other id is attributed exactly when the last index line for it and the project gives an existing directory at or below sessions/ |
| Paths.ConfinedIff | kimi.go:143-146 | filepath.Rel on clean absolute paths, and the check on its result: a path passes if and only if it is absolute and, once clean, the base itself or below it |
| KimiStore.RelOfExact | kimi.go:143-150 | So the confinement check of an index line admits exactly sessions/ itself and what lies below it, whatever dots and slashes the line's path has, and yields the elements below |
| KimiStore.RelOfDirOf | kimi.go:171-176 | The path that a seed writes into a line of its own leads back to the session's directory |
| KimiStore.AddListed | kimi.go:134-154 | The same result whatever order the map is ranged over |
| KimiStore.IndexFixpoint | kimi.go:156-188 | Read back for the project the scoped index yields one line for each attributed session, the host's own trimmed line where there is one and else a line with its id, its absolute directory and the project; read back for any other project it yields nothing |
| KimiSeed.FilterWorkspaces | kimi.go:246-254 | The workspaces whose root is the project, whatever order the map is ranged over |
| KimiSeed.SeedKimiWorkspaces | kimi.go:234-264 | Writes the filtered file, or nothing when the host's is missing or does not parse |
| KimiSeed.CopySessions | kimi.go:165-181 | Copies the sessions in order and builds the scoped index |
| KimiSeed.SeedKimiStore | kimi.go:96-203 | Carries out the seed's operations up to the first that fails |
| KimiSeed.PrepareKimiStore | kimi.go:69-91 | Does nothing when the marker is there, else a whole seed with the marker last |
| KimiSeed.PreparedLeavesMarker | kimi.go:69-91 | A launch that succeeds leaves the marker |
| KimiSeed.SeededOnce | kimi.go:63-75 | Once the marker is there the store changes by sandbox edits alone, over any run of host changes, edits and launches |
| KimiSeed.ForkedOnceSeeded | kimi.go:63-75 | Over any run from any store: after a launch that succeeds the store changes by sandbox edits alone |
| KimiIsolation.FreshSeedExact | kimi.go:93-95 | Under sessions/ a freshly seeded store holds exactly what the host has in the directories of the attributed sessions, and the directories on the way to them; the permission of directories aside |
| KimiAttribution.OwnSessionsHeld | kimi.go:93-95 | A fresh store holds every file and directory of every such session, unchanged and at its own place |
| KimiContents.FreshStoreExact | kimi.go:31-42 | What else a fresh store holds, name by name: everything of the configuration but ten names, two empty directories for credentials, the scoped index, the project's own prompt history, the workspaces whose root is the project, the empty marker, and nothing at or below logs, telemetry, bin and updates |
| KimiIsolation.OnlyAttributedSessions | kimi.go:156-168 | Every session file of a freshly seeded store is, unchanged, a file of the host inside a directory attributed to the project |
| KimiIsolation.PrimaryApart | kimi.go:104-132 | A session attributed by its own state.json lies apart from every session directory that does not name the project |
| KimiIsolation.NotOwnHeldIff | kimi.go:134-154 | A fresh store has a session directory that does not name the project if and only if an index line of the project, for an id that no state.json attributes, lists that directory or one above or below it; otherwise it has nothing in it |
| KimiIsolation.OthersInvisibleIff | kimi.go:67-68 | Nothing of another project's sessions is in a fresh store if and only if no such line strays to one of them |
| KimiIsolation.ForeignStateHeldIff | kimi.go:134-154 | The state.json of another project's session is in a fresh store if and only if such a line lists the session's directory or one above it |
| KimiIsolation.RootLineCopiesAll | kimi.go:143-150 | A line that names sessions/ itself, in any spelling, for an id that no state.json attributes, brings in every session of every project |
| KimiRetries.RetriedSeedIsClean | kimi.go:76-91 | From any store without the marker: failed launches on an unchanged host followed by one that is not let down end in the store of one clean seed, when the configuration holds nothing named like the marker and the clean seed leaves nothing it wrote read-only |
| KimiRetries.MarkerFromConfigOnly | kimi.go:72-89 | The only way a seed puts the marker in place before its end is by copying it from the configuration |
| KimiRetries.CopiesSealedIff | config.go:331 | A clean seed of a fresh store leaves a read-only file if and only if the configuration's copied part, an attributed session or the prompt history holds one |
| KimiRetries.RetriesCleanIff | kimi.go:69-91 | Where an undisturbed seed of a fresh store succeeds, all runs of failed launches on it end clean if and only if the configuration holds nothing named like the marker and no file that is copied is read-only |
| KimiRetries.NeverSeeded | kimi.go:76-78 | Once a read-only file of the configuration has been copied and the seed was not completed, every later launch fails, over any run of them |
| KimiRetries.MarkedConfigStopsSeeding | kimi.go:69-91 | A concrete configuration with a file named .seeded, for which an interrupted seed is taken for complete |
| KimiCompletion.SeedSucceedsIff | kimi.go:69-203 | On a host whose sessions and history can be read and whose sessions can be written, a seed of a fresh store that nothing interrupts succeeds if and only if the configuration is there, can be read and copied to an empty directory, its own directory is writable, and it has at most a writable file in the marker's place |
| KimiCompletion.SeedsReliablyIff | kimi.go:69-91 | On such a host every run of launches, interrupted or not, followed by one that is not succeeds with the store of a clean seed if and only if the configuration is of that kind, holds nothing named like the marker, and no file that is copied is read-only |
| KimiCompletion.BarredNeverSeeded | kimi.go:76-82 | With a configuration whose own directory is read-only no launch ever succeeds, over any run of them on any host |
| KimiCompletion.ReadOnlyRootNeverSeeds | config.go:405 | A concrete configuration, empty and with a read-only directory, that can be copied but never seeded from |
| KimiCompletion.ReadOnlyConfigNeverSeeds | config.go:331 | A concrete configuration with one read-only file: an undisturbed seed succeeds, but one interrupted after that file is never completed |
| KimiCompletion.StrayLineLetsIn | kimi.go:134-154 | A concrete host whose seed succeeds and puts another project's session into the store |
| AgyStore.AgyWorkspaceConversations | agy.go:94-123 | The recent conversation and those named by the workspace's history lines |
| AgyStore.ConversationsExact | agy.go:94-123 | An id is attributed exactly when it is not empty and the recency map gives it for the workspace or a scanned history line names both |
| AgyStore.SeedAgyRecency | agy.go:128-140 | The workspace's own recency entry, if it has one |
| AgyStore.SeedAgyHistory | agy.go:144-166 | The workspace's own history lines in order, or no file |
| AgyStore.OwnInOrder | agy.go:144-166 | Each history line is kept or dropped by itself, and those kept stay in order |
| AgyStore.SeededFiles | agy.go:128-166 | A fresh store is given a recency map, of one entry, exactly when the host's gives the workspace a conversation, and a history, of its own lines, exactly when some line is the workspace's |
| AgyStore.AttributionFixpoint | agy.go:66-123 | Attributing again in a freshly seeded store gives the host's conversations of the workspace, and none for any other workspace |

## Left out

- Incoming.ParseHeaderFields: works on a message value and returns the updated one; the program updates the message in place. How much spare capacity the runtime gives a slice is a parameter.
- Dispatch.Choose: picks signature and closure in one place where the program returns a reply from each branch; branches with equal replies are merged.
- Values.DecodeMarshal: types the service never sends (other integers, doubles, file descriptors), UTF-8 and object path syntax, and D-Bus's limits on array and message length are not checked by the decoder.
- Service.ServeConn: one connection with a finite input; the panic of a header fault is the ending `ReadFailed(HeaderFault)`, its effect on other connections is not modelled; a write either arrives whole or fails, and accepting connections, sockets and debug output are not modelled.
- OpensslIncludes.Walker.Walk: what `parseOpensslIncludes` makes of a file's text is given as the file's list of targets; the file system does not change during a walk.
- Destination.ResolveAndCheck: name resolution is an arbitrary list of addresses or a failure; the text form of the dialled address and error messages are not modelled.
- Disk.Volume.Do: of permissions only the owner's write permission is modelled, for a user who is not root; the umask, search permission, timestamps and symbolic links are not. The directory that holds the tree's root is there and can be written to.
- TreeCopy.CopyDirRel: the source tree does not change during a copy and is not inside the destination; a source file that can be opened can be read to its end.
- KimiStore.IndexFixpoint: JSON is a set of functions with the laws in `Lawful`; the lines written must fit the scanner's buffer and the strings encoded must be text.
- KimiStore.AttributeSessions: the host's sessions/ has an absolute path; symbolic links on the way to a listed directory are not modelled.
- KimiSeed.PrepareKimiStore: the store's path, which distinct projects can share, and the MD5 name of the history file are parameters.
- AgyStore.AttributionFixpoint: the copies of conversation, brain and implicit files and the marker of the agy store are not modelled. Unlike Kimi's, agy's seed ignores copy errors and sets its marker even when it failed, so what a first seed misses is never copied later.
- `RunSandbox` and the assembly of its mount list, the HTTP plumbing of the proxy, agent detection and flags: operating system calls or long straight-line code.
- copilot.go, mimo.go and `copyCodexState`: their meaning is that of SQLite statements.
- pool.go and the rest of codex.go: easier copies of the store properties.
