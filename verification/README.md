# d-os: verified core

A Dafny model of the parts of d-os that carry an algorithm or a protocol of their
own, with proofs. `dafny verify dfyconfig.toml` checks all of it.

| files | what they model |
|---|---|
| `Bits`, `BitReader`, `Huffman`, `Deflate`, `DynamicHeader`, `DeflateStream`, `Inflate`, `Crc`, `Gzip` | the image unpacker's gzip decoder: canonical Huffman codes, DEFLATE (RFC 1951), CRC-32 and the gzip member (RFC 1952) |
| `Rfc1951`, `CrcPoly`, `CrcWord`, `Sha256Numbers`, `Sha256Constants`, `Sha256Abc` | what the standards say of its tables and constants: DEFLATE's by formula and by code number, the CRC as a polynomial remainder, SHA-256's functions bit by bit, its constants as roots of primes, and its one-block example |
| `Sha256`, `Tar`, `Json`, `LinkPath` | the rest of the unpacker: digests (FIPS 180-4), ustar lookup, the JSON span scanner, link normalisation |
| `FutexMutex` | the three-state futex mutex, under every interleaving of any number of threads |
| `Wayland` | message framing over a stream that arrives in arbitrary pieces |
| `Capabilities`, `StatLayout` | the Linux ABI layer's capability sets and its table-driven `struct stat` |
| `Installer`, `Recovery`, `Masked`, `PowerCuts` | installing an application from an image's directories, files, links and whiteouts, with faults and power cuts anywhere |
| `Glyph`, `Flatten` | curve flattening in the font converter |

How the decoders are proved: each format is written down twice, as a writer that
turns a value into bits or bytes and as a reader over a sequence. Lemmas show the
two are inverse in both directions. The methods, which keep the source's loops,
buffers and indices, are proved to compute what the reader says for every input,
so they return, stay in range, and accept exactly the written forms.

Writer and reader share tables and constants, so being inverse says nothing about
those. They are held to the standards separately, by number: a code by its value, a
table by its formula, a polynomial by its exponents, a wire format by its bytes.

Things the proofs found that a maintainer should know:

- `quad` promises an error of |P0-2P1+P2|/(8n^2). The exact worst case is
  |P0-2P1+P2|/(4n^2), so a curve can be almost twice the tolerance away
  (`Glyph.AlmostTwice`, `Glyph.CountKeepsTolIff`, `Glyph.TwiceTol`).
- `find_key` takes a string value for the key when it spells the key
  (`Json.FindKeyMisled`); `Json.FindKeyExact` gives the exact condition.
- `app_install` can answer "already installed" over a partial tree with no record.
  Recursive removal refuses a directory eight levels down
  (`kernel/fs/vfs.c:1647`), and its result is not looked at
  (`kernel/core/apps.c:249`). So an image with a directory that deep, cut while
  unpacking, leaves a tree that no later install ever repairs
  (`Installer.AlreadyThereIffShallow`, `Installer.DeepRun`,
  `Installer.StuckIsForEver`, `PowerCuts.AlreadyThereIff`).
- An empty file is lost, and counts as written, where a directory stays: the
  unlink is refused, opening the directory for writing is not
  (`kernel/fs/vfs.c:922-1030`), and of an empty file nothing is written after that
  (`user/ociunpack.c:448-461`). A later layer that puts an empty file in the place
  of a directory with something in it is then recorded as installed without it
  (`PowerCuts.LayersLose`). For an image that puts nothing at
  the record's path, the record can be trusted exactly when no file can be lost in
  this way (`Masked.TrustedIffSound`, `PowerCuts.TrustedIffNothingLost`), and
  installs recover exactly when, besides, nothing is too deep and no entry has to
  fail (`Masked.RecoversIff`, `PowerCuts.RecoversIff`).
- The application disk is exFAT, which stores no links
  (`kernel/fs/exfat.c:1648-1655`). A symbolic link is left out without being
  counted; a hard link is counted, so an image with one is never installed
  (`Recovery.HardLinkNeverInstalled`).
- An image that ships a `.app` beside files can leave a record over a
  partial tree (`Installer.HarmfulImageFools`, `Masked.TrustedIffSound`).
- A capset of what a one-word capget returned drops capabilities above 31
  (`Capabilities.OneWordKeepsIff`, `Capabilities.OneWordLoses`).

Where a comment and the code disagree the code is followed: a contour without an
on-curve point starts half way between its first and last points
(`scripts/ttf2font.py:285`), not its first two.

Conventions: bytes are integers 0 to 255; the CRC register is its 32 bits, low bit
first; a 64-bit capability mask is the set of its bit numbers; C strings are
sequences without the terminator; SHA-256 words and device numbers are bit-vectors.

## Model

| member | source | states |
|---|---|---|
| BitReader.Reader.GetBit | user/ociunpack.c:250-259 | returns the next bit of the input's bit stream and moves one bit on, or -1 without moving exactly at the end |
| BitReader.Reader.GetBits | user/ociunpack.c:260-264 | returns the number the next n bits spell, low bit first, or -1 with the input exhausted exactly when fewer are left |
| Bits.LowFirstReadsBack | user/ociunpack.c:260-264 | a number lies in the bit stream, low bit first, if and only if reading its width gives it back |
| Huffman.KraftIffCodesFit | user/ociunpack.c:265-274 | the Kraft inequality, summed over symbols, holds if and only if the canonical codes of every length fit that length |
| Huffman.Build | user/ociunpack.c:265-274 | for any length vector, over-subscribed ones included, the table lists exactly the symbols of each length in increasing order, and every index stays in the 320 slots |
| Huffman.DecodeSymbol | user/ociunpack.c:275-287 | the bit-at-a-time table walk computes the canonical decoder, for any lengths, with the table index always in range |
| Huffman.DecodeInvertsCode | user/ociunpack.c:275-287 | under Kraft, the code bits of a symbol followed by anything decode to that symbol and consume exactly its length |
| Huffman.DecodeSound | user/ociunpack.c:275-287 | for any lengths at all, a decoded symbol's own code is what was consumed |
| Huffman.DecodeIffCode | user/ociunpack.c:265-287 | under Kraft, decoding yields a symbol if and only if its code comes next |
| Huffman.CodesPrefixFree | user/ociunpack.c:265-287 | under Kraft, no symbol's code is a prefix of another's |
| Deflate.EveryCopyHasItem | user/ociunpack.c:288-291 | the length and distance tables leave no gap: every length 3 to 258 and distance 1 to 32768 can be encoded |
| Deflate.CopyBackIsPeriodic | user/ociunpack.c:307-308 | a back-reference yields the one extension of the output with period equal to the distance, overlapping copies included |
| Deflate.ReadItemInverts | user/ociunpack.c:294-308 | a literal, back-reference or end code that was written is read back, whatever follows |
| Deflate.ReadItemSound | user/ociunpack.c:294-308 | whatever is read as an item lies in the input exactly as the writer puts it |
| Deflate.ReadBodyInverts | user/ociunpack.c:292-310 | a written block body expands to exactly what its items say |
| Deflate.ReadBodySound | user/ociunpack.c:292-310 | a body that is accepted is some item sequence as written, within the output limit |
| Rfc1951.LengthTable | user/ociunpack.c:288-289 | extra bits of length symbol i by formula (0 below 4 and at 28, else i/4 - 1); bases start at 3 and grow by exactly 2 to the extra bits; symbol 28 is 258 |
| Rfc1951.DistTable | user/ociunpack.c:290-291 | the same for distances, from 1, with i/2 - 1 extra bits |
| Rfc1951.OrderIs | user/ociunpack.c:340 | the transmission order is 16, 17, 18, 0 and then outwards from 8 and 7 by turns |
| Rfc1951.RepeatCodes | user/ociunpack.c:351-358 | codes 16, 17 and 18 have 2, 3 and 7 extra bits and repeat the last length, or zero, from 3, 3 and 11 times on |
| Rfc1951.FixedCode | user/ociunpack.c:331-337 | section 3.2.6 of RFC 1951: symbols to 143 are 0x30 on in 8 bits, to 255 are 0x190 on in 9, to 279 are 0 on in 7, to 287 are 0xC0 on in 8 |
| Rfc1951.FixedDistCode | user/ociunpack.c:336-337 | a fixed distance code is its symbol in five bits |
| Rfc1951.FixedBlockReads | user/ociunpack.c:311-337 | any literals and back-references written by these numbers decompress to what they say |
| Rfc1951.TextReads | user/ociunpack.c:311-337 | so any text, each byte written with its number, decompresses to itself |
| Rfc1951.LetterA | user/ociunpack.c:311-337 | the bytes 4b 04 00 decompress to the letter a |
| Rfc1951.StoredReads | user/ociunpack.c:321-329 | every text of less than 64 KiB, given byte by byte as a stored block, decompresses to itself |
| Rfc1951.TinyReads | user/ociunpack.c:339-361 | a dynamic block given bit by bit decompresses |
| DynamicHeader.OrderIsPermutation | user/ociunpack.c:340-345 | the transmission order of the 19 code lengths is a permutation |
| DynamicHeader.ReadClIff | user/ociunpack.c:344-345 | the code-length lengths are read as given if and only if they were written so |
| DynamicHeader.ReadHeaderInverts | user/ociunpack.c:340-359 | a written dynamic header, with any use of the three repeat codes, yields exactly its two length vectors |
| DynamicHeader.ReadHeaderSound | user/ociunpack.c:340-359 | a dynamic header that is accepted is one the writer can produce, with the lengths read |
| DeflateStream.FixedCodesFit | user/ociunpack.c:331-337 | the fixed literal code uses up the code space exactly; the 30 fixed distance codes leave two unused |
| DeflateStream.ReadStoredInverts | user/ociunpack.c:321-329 | a stored block with any padding bits gives back its bytes |
| DeflateStream.ReadBlockInverts | user/ociunpack.c:317-362 | a stored, fixed or dynamic block that was written expands to what it says |
| DeflateStream.ReadStreamInverts | user/ociunpack.c:311-366 | any sequence of stored, fixed and dynamic blocks under codes that are not over-subscribed decompresses to exactly the expansion of its tokens, whatever follows it |
| DeflateStream.ReadStreamSound | user/ociunpack.c:311-366 | whatever decompresses is a sequence of blocks as written, over-subscribed codes included, with that expansion: nothing else is accepted |
| DeflateStream.StoreAll | user/ociunpack.c:321-329 | every byte string is the output of some stream of stored blocks to which the theorems apply |
| DeflateStream.FixedCodesEverything | user/ociunpack.c:331-337 | every literal, back-reference and end code can be written with the fixed codes |
| DeflateStream.TinyDynamicBlock | user/ociunpack.c:339-361 | a dynamic block to which the theorems apply, at every bit position |
| Inflate.CopyMatch | user/ociunpack.c:308 | the in-place copy loop leaves the buffer as the byte-by-byte copy says |
| Inflate.Codes | user/ociunpack.c:292-310 | the block loop computes the reader's result for every input and any table, in range, and fails exactly when the reader does |
| Inflate.StoredBlock | user/ociunpack.c:321-329 | rounds up to the byte, checks the complement and both limits, and copies |
| Inflate.ReadLengths | user/ociunpack.c:348-359 | the run-length loop computes the reader's lengths; when repeat bits run out it may go on, but then the input is left exhausted |
| Inflate.DynamicTables | user/ociunpack.c:340-360 | both tables are those of the lengths the header spells; header fields that ran out are either caught or leave the input exhausted |
| Inflate.FixedTables | user/ociunpack.c:330-337 | builds the tables of the fixed codes |
| Inflate.BlockOf | user/ociunpack.c:317-362 | one block of each type, the reserved type refused, as the reader says |
| Inflate.Inflate | user/ociunpack.c:311-366 | for every byte string, valid or not, it terminates with every index in range and succeeds exactly when the reader does, with the reader's output |
| Crc.ComputeCrc | user/ociunpack.c:367-374 | the byte-at-a-time loop computes the CRC defined one message bit at a time |
| Crc.LoadThenShift | user/ociunpack.c:369-372 | up to 32 message bits may be exclusive-ored in first and shifted through after |
| Crc.TurnBijective | user/ociunpack.c:371 | one step of the inner loop is a bijection of the register |
| Crc.BurstDetected | user/ociunpack.c:367-374 | two messages of one length that differ only within 32 consecutive bits have different CRCs, at every length and position |
| Crc.ByteChangeDetected | user/ociunpack.c:367-374 | one changed byte always changes the CRC |
| CrcPoly.CrcIsRemainder | user/ociunpack.c:367-374 | a word is the CRC of a message if and only if its complement is the remainder, over GF(2) and by the generator with exponents 32, 26, 23, 22, 16, 12, 11, 10, 8, 7, 5, 4, 2, 1 and 0, of the message times x^32 with its first 32 bits inverted |
| CrcPoly.RegisterIsRemainder | user/ociunpack.c:369-372 | from any register, after any bits, the register is the remainder of register times x^n plus message times x^32 |
| CrcPoly.RemainderUnique | user/ociunpack.c:367-374 | there is only one such remainder |
| CrcWord.PolyWord | user/ociunpack.c:371 | the generator's register is the machine word 0xEDB88320 |
| CrcWord.TurnOfWord | user/ociunpack.c:371 | a turn of the register is the loop's shift and exclusive-or on the machine word |
| CrcWord.Residue | user/ociunpack.c:367-374 | any message followed by the four bytes of its own CRC leaves the register at 0xDEBB20E3 |
| Gzip.FlagNumbers | user/ociunpack.c:378-382 | where the data begins, by the number in the flag byte |
| Gzip.Bomb | user/ociunpack.c:386-394 | a bomb announces more than 64 MiB and, besides, more than 1 GiB or at least 20 times the member's bytes and one |
| Gzip.HeaderEndExact | user/ociunpack.c:377-382 | every mix of extra, name, comment and header-CRC fields is skipped exactly |
| Gzip.GunzipChecked | user/ociunpack.c:401-404 | whatever is returned has the trailer's length and CRC |
| Gzip.GunzipInverts | user/ociunpack.c:376-405 | a member whose data decompresses to its output, and is no bomb by the ratio rule, comes back as that output |
| Gzip.GunzipOfBlocks | user/ociunpack.c:311-405 | blocks packed into bytes and framed with any header decompress to exactly what the blocks say |
| Gzip.MemberIsMember | user/ociunpack.c:383-385 | header, data, CRC and length put together are a member in the sense of these lemmas |
| Gzip.EveryOutputHasMember | user/ociunpack.c:376-405 | for every header and every byte string up to 64 MiB there is a member with that header that decompresses to it |
| Gzip.GunzipMember | user/ociunpack.c:376-405 | for every byte string, succeeds exactly when the format's definition does and the mapping is granted, with its bytes |
| Sha256.Schedule | user/ociunpack.c:144-151 | the array holds the message schedule of section 6.2.2 of FIPS 180-4 |
| Sha256.CompressBlock | user/ociunpack.c:143-159 | computes the standard's compression function |
| Sha256.BuildTail | user/ociunpack.c:164-171 | the tail buffer is the rest of the message padded as in section 5.1.1, in one block or two |
| Sha256.Sha | user/ociunpack.c:160-173 | for every length, the fold of the compression function over the padded message |
| Sha256.BlocksCarryOver | user/ociunpack.c:163 | hashing blocks and then more is hashing all of them, first block first |
| Sha256.BlockAddsPermuted | user/ociunpack.c:152-158 | what a block adds to the state differs for any two states: the rounds are a permutation and the incoming state is added |
| Sha256Numbers.Choice | user/ociunpack.c:154 | where the first has a bit the second's is chosen, elsewhere the third's |
| Sha256Numbers.Majority | user/ociunpack.c:155 | where two agree, that is the result |
| Sha256Numbers.Sum0Is | user/ociunpack.c:155 | linear, the same for every bit counted round, and from bit 0 to bits 30, 19 and 10 |
| Sha256Numbers.Sum1Is | user/ociunpack.c:154 | linear, the same for every bit counted round, and from bit 0 to bits 26, 21 and 7 |
| Sha256Numbers.Sig0Is | user/ociunpack.c:148 | linear; the shift by 3, and a part that is the same for every bit counted round and takes bit 0 to bits 25 and 14 |
| Sha256Numbers.Sig1Is | user/ociunpack.c:149 | linear; the shift by 10, and a part that is the same for every bit counted round and takes bit 0 to bits 15 and 13 |
| Sha256Constants.PrimesAre | user/ociunpack.c:133-141 | the 64 numbers listed are primes, in increasing order |
| Sha256Constants.Listed | user/ociunpack.c:133-141 | every prime up to 311 is among them, so they are the first 64 |
| Sha256Constants.KIsCubeRoot | user/ociunpack.c:133-141 | each round constant is the first 32 bits of the fraction of its prime's cube root, by an integer bracket |
| Sha256Constants.H0IsSquareRoots | user/ociunpack.c:161 | the initial state is the same of the first eight square roots |
| Sha256Abc.AbcHash | user/ociunpack.c:143-173 | the digest of "abc" is the standard's, proved round by round |
| Sha256Abc.AbcHex | user/ociunpack.c:160-182 | and its text is ba7816bf and so on |
| Sha256.PadInjective | user/ociunpack.c:164-171 | different messages have different padded forms |
| Sha256.ShaHex | user/ociunpack.c:160-182 | the 64 digits are the digest's, byte by byte |
| Sha256.HexInjective | user/ociunpack.c:174-180 | two digests with the same text are the same digest |
| Tar.ReadOctal | user/ociunpack.c:100-108 | the octal loop, spaces skipped, wrapping with the machine word |
| Tar.SizeReadsBack | user/ociunpack.c:100-108 | any size field a writer may produce reads back as the size |
| Tar.ReadName | user/ociunpack.c:117-124 | the name buffer holds prefix, slash and name, cut at 250 bytes, and is never overrun |
| Tar.TarFind | user/ociunpack.c:110-130 | for any bytes the walk stays in range, advances, and finds what the definition finds |
| Tar.FindExact | user/ociunpack.c:110-130 | in an archive written from any entries, gives the data of the first member of that name, or nothing |
| Tar.FindByName | user/ociunpack.c:110-130 | for full names of at most 250 bytes, without the cut: the data of the first entry whose prefix, slash and base, or base alone, is the name; nothing exactly when there is none |
| Json.SkipString | user/ociunpack.c:203-207 | stops just past the closing quote, escapes skipped |
| Json.MatchClose | user/ociunpack.c:208-217 | the loop computes the depth scan, or the end of the span |
| Json.MatchCloseExact | user/ociunpack.c:208-217 | at any object or array, printed with any whitespace and followed by anything, returns exactly its end |
| Json.FindKey | user/ociunpack.c:219-237 | the loop computes the depth-one key scan |
| Json.FindKeyExact | user/ociunpack.c:219-237 | finds the value of the first member of that name, or nothing, if and only if no earlier string value of the object spells the key |
| Json.FindKeyMisled | user/ociunpack.c:226-229 | a concrete object on which the lookup goes wrong |
| LinkPath.WalkIsProper | user/ociunpack.c:476-488 | no empty, "." or ".." component is left |
| LinkPath.NormalIsIdempotent | user/ociunpack.c:473-489 | normalising keeps the meaning of the path and changes nothing the second time |
| LinkPath.NormalIsNoLonger | user/ociunpack.c:474-489 | the result is never longer than the path |
| LinkPath.DotDotAtRoot | user/ociunpack.c:481-485 | ".." at the root stays at the root |
| LinkPath.LinkMeans | user/ociunpack.c:463-491 | for every link and target, a relative target is walked from the link's directory and an absolute one from the root, each as far as the 256-byte buffer holds it |
| LinkPath.LinkBeside | user/ociunpack.c:463-491 | a link in directory d whose target is "/" and t means t from the root; with a relative t that fits it means t from d |
| LinkPath.StepsMean | user/ociunpack.c:476-488 | a name goes down, ".." after it comes back, "." and nothing stay, and a path is the names with slashes between |
| LinkPath.PopLast | user/ociunpack.c:482-483 | the backward scan drops exactly the last component |
| LinkPath.Normalise | user/ociunpack.c:473-489 | the in-place normaliser leaves the path of the walked directory stack, and its 256 bytes never cut it |
| LinkPath.Resolve | user/ociunpack.c:463-489 | the whole resolution, with its truncating buffers, up to the final join |
| FutexMutex.StepKeepsInv | user/threadtest.c:24-49 | every atomic step of every thread keeps the invariant |
| FutexMutex.MutualExclusion | user/threadtest.c:24-49 | over all interleavings of any number of threads: at most one owner, the word in 0 to 2 and zero exactly when there is no owner, and the counter equal to the increments made |
| FutexMutex.WakeupNeverLost | user/threadtest.c:24-39 | whenever a thread sleeps, the lock is held and marked contended, or somebody awake is bound to wake it or mark the word |
| FutexMutex.SomeoneAwake | user/threadtest.c:24-39 | a state with unfinished threads all parked is unreachable |
| FutexMutex.FinalCount | user/threadtest.c:41-64 | when all threads are done the counter is threads times iterations |
| FutexMutex.CanFinish | user/threadtest.c:24-49 | from every reachable state some schedule finishes every thread |
| FutexMutex.NeverDeadlocks | user/threadtest.c:24-64 | after any run, every thread can still finish, with the exact count |
| Bits.Get32OfPut32 | user/libwl.c:15-21 | a 32-bit number written low byte first reads back |
| Wayland.HeadOfEncoded | user/libwl.c:15-36 | an encoded message followed by anything is recognised and decoded to itself |
| Wayland.SizeBytes | user/libwl.c:46-48 | the size is in bytes 6 and 7, low byte first; a message is whole if and only if that is 8 to 1024 and that much is there |
| Wayland.WireBytes | user/libwl.c:19-51 | a whole message by its bytes: object in 0 to 3, opcode in 4 and 5, low bytes first, and the body from 8 |
| Wayland.ParseOfEncoded | user/libwl.c:27-63 | messages written one after the other parse back as they were |
| Wayland.ArgReadsBack | user/libwl.c:19-34 | each 32-bit argument reads back from the body |
| Wayland.SentComesBack | user/libwl.c:27-63 | a request comes back unchanged, argument by argument |
| Wayland.Context.Send | user/libwl.c:28-36 | writes exactly the encoded request |
| Wayland.Context.Recv | user/libwl.c:40-63 | yields the first message of the pending bytes, its body's bytes up to 256 each in its place, and consumes exactly it, however the stream is cut; fails, consuming nothing, exactly when no whole message of at most 1024 bytes can be there |
| Wayland.Context.RecvAll | user/libwl.c:40-63 | successive calls yield exactly the parse of the whole stream, bodies cut to 256 bytes; messages with bodies of at most 256 bytes, sent one after the other and followed by anything that is not a whole message, come out exactly as they were sent |
| Wayland.ArriveAsSent | user/libwl.c:27-63 | what a caller receives of such a stream is the messages sent |
| Wayland.Context.ShiftDown | user/libwl.c:53-54 | the in-place shift drops exactly the consumed bytes |
| Capabilities.Cred.CapGet | kernel/core/abi_engine.c:2255-2292 | transfers the three sets of the caller or of the process named, in one or two words; an unknown version is answered with the preferred one; which error each fault and a missing process gives, in the source's order |
| Capabilities.Cred.CapSet | kernel/core/abi_engine.c:2293-2327 | applies capset's rules, to the caller only, and leaves everything as it was on every refusal, each with its error |
| Capabilities.Cred.Prctl | kernel/core/abi_engine.c:2378-2418 | the bounding and ambient options, each with its effect, its answer and the error of each refusal |
| Capabilities.Cred.ExecCaps | kernel/core/cred.c:420-430 | what execve does to the sets |
| Capabilities.NothingGivenUp | kernel/core/cred.c:405-415 | an administrator that has given nothing up holds capabilities 0 to 40 and no others; anybody else none |
| Capabilities.ExecGives | kernel/core/cred.c:420-430 | after exec an administrator's permitted and effective sets are both exactly inheritable and bounding together, and ambient is empty |
| Capabilities.SetExact | kernel/core/abi_engine.c:2293-2327 | capset succeeds if and only if effective is within permitted, permitted within the old one, and each bit new to inheritable is permitted, bounding and asked for with SETPCAP; then the sets are those asked for |
| Capabilities.OptionsGive | kernel/core/abi_engine.c:2378-2418 | what each prctl option takes from or adds to which set, and that it leaves the others |
| Capabilities.PlaceOfBit | kernel/core/abi_engine.c:2283-2308 | capability b is bit b%32 of word b/32, sent and received |
| Capabilities.RunKeeps | kernel/core/abi_engine.c:2293-2418 | over every run, execs included: effective within permitted, ambient within permitted and inheritable, bounding only shrinks, and what has left permitted, inheritable and bounding never comes back |
| Capabilities.CallShrinksPermitted | kernel/core/abi_engine.c:2310-2325 | between execs permitted only shrinks, and inheritable gains only permitted and bounding bits, only with SETPCAP |
| Capabilities.RunShrinksPermitted | kernel/core/abi_engine.c:2293-2418 | permitted only shrinks over any run without exec |
| Capabilities.SetWhatGotKeeps | kernel/core/abi_engine.c:2266-2327 | under a two-word header, capset of what capget returned succeeds and changes no set |
| Capabilities.OneWordKeepsIff | kernel/core/abi_engine.c:2255-2327 | under a one-word header it succeeds too, and changes no set if and only if nothing above bit 31 is held |
| Capabilities.OneWordLoses | kernel/core/abi_engine.c:2255-2327 | an administrator that never gave anything up loses exactly capabilities 32 to 40 by it |
| StatLayout.StPut | kernel/core/abi_engine.c:555-558 | writes one field little-endian, or nothing when the guest has none |
| StatLayout.PutStat | kernel/core/abi_engine.c:559-585 | writes the structure the layout describes, or nothing on either error |
| StatLayout.FieldReadsBack | kernel/core/abi_engine.c:555-585 | for every layout whose fields are in range and apart, each reads back as its value modulo its width |
| StatLayout.RestIsZero | kernel/core/abi_engine.c:564 | every byte outside the fields is zero |
| StatLayout.ShippedLayouts | kernel/core/abi_linux.c:434-441 | the three shipped layouts are in range and apart |
| StatLayout.FieldsI386 | kernel/core/abi_engine.c:565-583 | which value goes where, and how wide, for an i386 guest |
| StatLayout.FieldsAmd64 | kernel/core/abi_engine.c:565-583 | the same for an amd64 guest |
| StatLayout.FieldsArm64 | kernel/core/abi_engine.c:565-583 | the same for an arm64 guest |
| StatLayout.BlocksCover | kernel/core/abi_engine.c:583 | as many 512-byte blocks as the size needs and no more |
| StatLayout.SmallDev | kernel/core/abi_engine.c:575-580 | a major below 4096 and a minor below 256 are packed as 256 times the one and the other |
| StatLayout.DevBijection | kernel/core/abi_engine.c:575-580 | the device number packing is a bijection between 32-bit pairs and 64-bit values |
| Installer.StepKeepsInv | kernel/core/apps.c:241-285 | every file operation of the unpacker and the installer, fault and power cut keeps the invariant |
| Installer.RecordIsTrusted | kernel/core/apps.c:241-285 | over every run of installs, cut and failing anywhere, removals included, a version with a record has every regular file of an image of that version, as its last entry for the path left it; for images that put nothing at the record's path, or have no other files, and have no empty file at the path of an earlier directory |
| Installer.HarmfulImageFools | kernel/core/apps.c:246-275 | for every image that puts something at the record's path beside other files, a run that leaves a record over a partial tree |
| Masked.MaskedImageFools | user/ociunpack.c:448-461 | for every image that lists each path once, has no entry that must fail, and has an empty file at the path of an earlier directory, a run that leaves a record without that file |
| Masked.TrustedIffSound | kernel/core/apps.c:241-285 | the record can be trusted in every run, whatever fails, if and only if neither of the two holds; for all images without a masked file, and for those with one that list each path once and have no entry that must fail |
| PowerCuts.TrustedIffNothingLost | kernel/core/apps.c:241-285 | with power cuts only, for every image that puts nothing at the record's path: the record can be trusted in every run if and only if an entry must fail or no path ends as an empty file whose place was a directory with something in it |
| PowerCuts.LayersLose | user/ociunpack.c:448-461 | a file in a directory, then an empty file in the directory's place: every other condition is met, and an undisturbed install records it without the file |
| Installer.AlreadyThereIffShallow | kernel/core/apps.c:246-255 | for every image whose record can be trusted, over every run in which removals meet no disk error: "already installed" always means a recorded version with every file, if and only if no directory of the image outside the record's path, listed or implied by a path, is eight or more levels down |
| PowerCuts.AlreadyThereIff | kernel/core/apps.c:246-255 | with power cuts only, for every image that puts nothing at the record's path: that holds if and only if no tree on the way through the entries has such a directory and, unless an entry must fail, no file is lost |
| Installer.DeepRun | kernel/fs/vfs.c:1641-1669 | for every image with such a directory, a run that leaves it behind without a record |
| Installer.StuckSaysInstalled | kernel/core/apps.c:246-255 | from there the next undisturbed install answers "already installed" |
| Installer.StuckIsForEver | kernel/core/apps.c:246-285 | and no run at all, of any images with any faults and cuts, ever installs, records or clears that version |
| Recovery.UnpackedFiles | user/ociunpack.c:440-586 | if no entry is counted as a failure, the files that unpacking leaves are exactly the files of the image, whiteouts and replacements carried out, without the lost ones, all of them empty |
| Recovery.NothingLostIff | user/ociunpack.c:448-461 | then every file is there if and only if none was lost |
| Recovery.EndOfEntry | user/ociunpack.c:548-586 | when the single operations of an entry are over, the tree and the failure count are those of the entry taken as a whole |
| Recovery.QuietKeeps | kernel/core/apps.c:241-285 | every undisturbed step ends the install well or leads to where it still can be |
| Recovery.RecoversAlways | kernel/core/apps.c:241-285 | after any history of images whose directories are not too deep, every undisturbed install that ends has succeeded or, if an entry must fail, left nothing |
| Recovery.CanInstall | kernel/core/apps.c:241-285 | and such an install exists after every such history |
| Masked.RecoversIff | kernel/core/apps.c:217-285 | for an image that puts nothing at the record's path: after every history of it, with anything failing, every undisturbed install ends recorded, with every file and, if it did the work, with exactly the unpacked tree and the version current, if and only if no directory is too deep, no entry has to fail and no empty file has the path of an earlier directory; for the images of `TrustedIffSound` |
| PowerCuts.RecoversIff | kernel/core/apps.c:217-285 | with power cuts only before it, and for every image that puts nothing at the record's path: the same if and only if no tree on the way is too deep, no entry has to fail and no file is lost |
| Recovery.HardLinkNeverInstalled | user/ociunpack.c:569-573 | no run ever installs or records an image that has a hard link and puts nothing at the record's path |
| Glyph.SegmentsIsClosedForm | scripts/ttf2font.py:330-337 | the segment count is the floored square root plus one, at most 32 |
| Glyph.CurveByFractions | scripts/ttf2font.py:338-344 | a point of the curve is found by going the same fraction along both legs and along the line between (de Casteljau) |
| Glyph.GapExact | scripts/ttf2font.py:338-344 | the gap between chord and curve at one parameter is exactly s(1-s)/n^2 times P0-2P1+P2 |
| Glyph.GapBound | scripts/ttf2font.py:323-344 | it is at most a quarter of that over n^2, and equal to it in the middle of each segment |
| Glyph.WithinTolIff | scripts/ttf2font.py:323-344 | for any number of segments, the polyline is within the tolerance at every parameter if and only if the worst gap is |
| Glyph.CountKeepsTolIff | scripts/ttf2font.py:323-344 | with the count the script computes, floor(q)+1 or 32, it is within the tolerance if and only if 2q^2 is at most that count squared |
| Glyph.TwiceTol | scripts/ttf2font.py:323-344 | with the computed count, not cut to 32, it is within twice the tolerance |
| Glyph.AlmostTwice | scripts/ttf2font.py:323-344 | for every ratio below 2 a curve that gets one segment and whose top is further than that ratio times the tolerance from every point of it |
| Glyph.TolNotKept | scripts/ttf2font.py:324-337 | a curve and tolerance for which the polyline is further than the tolerance from the curve |
| Flatten.Quad | scripts/ttf2font.py:338-344 | the loop yields the n+1 curve points |
| Flatten.ExplicitAlternates | scripts/ttf2font.py:268-271 | with implied points written out, no two off-curve points are adjacent |
| Flatten.Draw | scripts/ttf2font.py:288-306 | the one-pass loop with a pending control point draws what the contour with its implied points written out says |
| Flatten.Snap | scripts/ttf2font.py:311-315 | integer vertices with runs collapsed |
| Flatten.EnterContour | scripts/ttf2font.py:275-286 | starts at the first on-curve point, or between the ends |
| Flatten.OutlineImplied | scripts/ttf2font.py:268-306 | writing out, between two adjacent off-curve points, the on-curve point half way leaves the outline as it was; for a contour with an on-curve point before the two |
| Flatten.OutlineTurned | scripts/ttf2font.py:275-306 | otherwise the script enters the contour at the point written out, and the outline is the same curve in two parts, taken from there |
| Flatten.OutlineSameIff | scripts/ttf2font.py:275-306 | unless the point written out is the contour's start anyway, the outline stays as it was if and only if an on-curve point comes before it |
| Flatten.PolygonsImplied | scripts/ttf2font.py:265-320 | so a glyph's polygons stay as they were |
| Flatten.StartIsHalfWay | scripts/ttf2font.py:284-285 | without an on-curve point the start is equally far from the contour's two ends on each axis |
| Flatten.OutlineOfLines | scripts/ttf2font.py:288-296 | a contour of on-curve points only is those points, and the first again |
| Flatten.RoundIsNearest | scripts/ttf2font.py:311-313 | a vertex is within a half of its point on each axis, and even when it is a half away |
| Flatten.OutlineCloses | scripts/ttf2font.py:288-306 | every outline returns to its start |
| Flatten.PolygonsClosed | scripts/ttf2font.py:308-320 | every polygon is closed, has no two equal vertices in a row and at least three; closing by hand is never needed |
| Flatten.FlattenAll | scripts/ttf2font.py:265-320 | the whole function computes the reference polygons |

## Left out

- FutexMutex: sequentially consistent atomics are assumed, and the kernel side is its bucket lock, comparison, parking and waking (kernel/core/futex.c), not its scheduler; that the scheduler is fair, so that threads do finish, is not modelled.
- Installer: a value-level state machine rather than methods on a heap, because a power cut may fall between any two operations; one install at a time, operations reach the disk in order, a path is the one the file system resolves, with "." and ".." carried out, and with the root before it fits the unpacker's 256 bytes (a longer one is cut there and stored under the cut name), names are compared exactly, a version's directory that cannot be made at first is not made with the first entry, and entries of other types (for which only the parents are made), hard links out of the subtree (which are passed over), permissions, `/bin` links and temporary configuration files are not modelled.
- Masked.TrustedIffSound: an image with an empty file at the path of an earlier directory that also lists a path twice or has an entry that must fail is decided only for runs with power cuts (`PowerCuts.TrustedIffNothingLost`), because with faults it depends on which unlinks fail.
- Masked.RecoversIff: as `TrustedIffSound`; takes an image that puts nothing at the record's path, because otherwise the record cannot be trusted; says nothing about `current` when the answer is "already installed", because a cut before it was written leaves it unset.
- LinkPath.Resolve: the final join with the image's root directory is not modelled.
- Wayland.Context.Recv: a read error is treated as the end of the stream; the registry round trip built on it is not modelled.
- Gzip.GunzipMember: inputs within 16 bytes of 4 GiB, where the C index would wrap, are excluded; the header CRC and reserved flags are not looked at, as in the source.
- Tar.TarFind: inputs within a kilobyte of 4 GiB, where the C offset would wrap, are excluded.
- Sha256.Sha: messages of 2^61 bytes or more, which a 32-bit length cannot name, take the length modulo 2^64.
- Capabilities.Cred.CapGet: process lookup and memory access are parameters, here and in `CapSet`.
- Glyph.WithinTolIff: compares curve and chord at the same parameter, over the reals; floating-point rounding is not modelled.
- The unpacker's `extract_layer` beyond the file operations of an entry, PAX records, digest lookup and `main`: their effect is on the file system and through kernel calls.
- The rest of the ABI layer: thin wrappers over other kernel code.
- `app_use` and `app_remove`: they check only that a directory exists.
- Drivers, scheduler, memory management, file systems, GUI and the remaining user programs: not part of this model.
