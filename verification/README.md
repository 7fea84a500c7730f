# Verified core of Clib4

Clib4, which grew out of clib2, is a C library for AmigaOS 4. This project models the parts of it that
carry the most state and branching, and proves what they promise:

- **fts** (`Fts*.dfy`): the file hierarchy walker. `FtsSpec` says what a depth-first walk is, over an
  oracle for `stat`, `lstat` and `readdir`; `FtsCursor` gives a walk a position and one step;
  `FtsMemory`, `FtsPath` and `FtsStream` hold the stream itself: nodes in an explicit heap with their
  links, the growing path buffer, `fts_open`, `fts_read`, `fts_build`, `fts_stat`, `fts_sort`,
  `fts_padjust`, `fts_close`. `FtsGrow` says what `fts_build` makes of a directory when `realloc` moves
  the buffer on the way, `FtsEnds` that every walk ends nevertheless, and `FtsRight` when such a walk is
  right. `FtsWalk` is a whole run. `FtsOrder` reads the walk as nested brackets, `FtsShown` says when the
  buffer spells the node's path, `FtsFast` compares the walk that skips `stat` with the full one.
- **crypt** (`HashStream`, `Crypt*.dfy`, `Strtoul`, `Blowfish*.dfy`, `Des*.dfy`): the block-buffered MD5, SHA-256
  and SHA-512 contexts, what the password schemes hash, the five parsers and printers of settings
  behind `crypt_r`, bcrypt's base 64 and key schedule, salted DES with its permutation tables, and
  `encrypt`. Compression functions and S-boxes are parameters, so every result holds for the real ones.
- **iconv** (`Iconv*.dfy`): decoders and encoders of the sets with a special type code (UTF-8 and
  BIG5 excepted), the restartable main loop, and the loops that number unmapped code points. The
  large tables are parameters.
- **argz** (`Argz*.dfy`): vectors of strings in one buffer: create, split, join, count, step, extract
  and replace.
- **byteswap** (`Swab.dfy`): the unrolled PowerPC loops of `swab24` and `swab64`, register by register.

`Octets` holds the byte type, `Common` what several models share. `dafny verify dfyconfig.toml` checks the project.

Code that changes state is a class or a method with loops, proved against functions of values; the
properties are lemmas about those functions.

## What the code does differently from what one would expect

- fts: when `realloc` moves the path buffer to make room for a name, the node with that name is stat'ed
  through the old block (`fts_path` is set before `fts_palloc` runs). `AddEntry`, `Build` and `Read` say
  what comes out, for every `realloc` and every content of the freed blocks. `MovedRun` is a run in which
  an existing file is shown as missing. `WalkRightIff` says exactly when no run goes wrong: when the walk
  is calm, that is, when in no directory that is read an entry both outgrows the buffer at a size at which
  `realloc` moves and is stat'ed. This depends on the lengths of the names, on `d_type` and link counts and
  on the sizes at which `realloc` moves. `CalmWhen` has the simple cases: a `realloc` that grows in place,
  or paths below 1024 characters.
- fts: the dummy node that `fts_open` leaves current has a level nobody sets. `fts_close` before the
  first read frees everything exactly when that level is not negative (`WalkSome`, `Close`).
- fts: an empty root directory whose path ends in '/' or ':' is shown in post-order with that character
  cut off (`Empty`, `CutWalk`). On all other visits, so on all visits exactly when no root is of this kind
  (`WalkSpelledIff`), the buffer spells the node's path.
- fts: the two places that append a child's name agree if and only if the directory's path does not end in
  ":/", and for "/" the code reads in front of the buffer (`BasesAgreeIff`). These two are outside the
  model of the stream.
- fts: with FTS_SEEDOT, a link count below two does not switch the shortcut off; `FastScanIff` has
  the exact condition.
- iconv: behind "ESC (" a last byte with the high bit set selects a two-byte set, and Shift_JIS looks
  up the table with trail bytes out of range. Both are modelled; the tables are total functions, so
  nothing is said about a lookup outside their bounds.
- iconv: a text with an escape character does not come back from ISO-2022-JP (`EscIsLost`).
- argz: `argz_extract` leaves the second slot alone when the first string is empty (`Extract`);
  `argz_create_sep` adds to the caller's length instead of setting it (`CreateSep`); `argz_replace`
  ends if and only if the search string is not empty or the vector is (`ScanEndsIff`).
- strtoul: the test for overflow misses overflows, so that 10000000000 is read as 1410065408
  (`OverflowMissed`); `NoticedIff` says exactly which ones are noticed. The rounds field of the SHA crypts is read right all the same (`ReadRounds`).

## Model

| member | source | states |
|---|---|---|
| FtsWalk.WalkAll | library/fts/fts.c:316-511 | for every `realloc`, from `fts_open` to NULL the run ends, nothing stays allocated and the caller sees the run of the code from the roots; if it is calm, that is exactly the depth-first walk of the roots, node by node with the string in the buffer, whatever directories the caller skips |
| FtsWalk.ReadAll | library/fts/fts.c:316-511 | the same from an opened stream on |
| FtsWalk.WalkSome | library/fts/fts.c:244-289 | after any number of reads, with any sequence of skips and moves of the buffer in between, `fts_close` leaves nothing allocated, except before the first read when the dummy's level is negative: an if-and-only-if |
| FtsWalk.Proceed | library/fts/fts.c:332-334 | one turn of a caller: an instruction and a read show the first visit still to come and leave the others, however the buffer moves |
| FtsWalk.ComingStep | library/fts/fts.c:360-511 | one read consumes one visit of the run and brings it nearer to its end; it ends only when none is left |
| FtsRight.WalkRightIff | library/fts/fts.c:741-840 | the whole walk is seen as the depth-first walk, whatever the freed blocks hold, if and only if it is calm; with names that are distinct in each directory, and some regular file and some missing path |
| FtsRight.RightIff | library/fts/fts.c:741-840 | the same from any position on; two contents of the freed blocks are enough to tell |
| FtsRight.ExposedIsWrong | library/fts/fts.c:749-824 | one entry that outgrows the buffer, makes it move and is stat'ed is enough for the caller to see a wrong walk |
| FtsRight.CalmWalk | library/fts/fts.c:741-840 | a calm run is the depth-first walk of the roots |
| FtsRight.RunOpens | library/fts/fts.c:411-466 | in every run all siblings still to come on a level are shown there, in their order, before the walk goes above it |
| FtsWalk.CalmWhen | library/fts/fts.c:759-777 | a walk is calm when `realloc` never moves, or when no path outgrows the first 1024 characters |
| FtsGrow.CalmUnfold | library/fts/fts.c:741-840 | a walk is calm from a position on if and only if the next directory is sheltered and the walk behind the next step is calm |
| FtsGrow.ShelteredIsScan | library/fts/fts.c:741-840 | a directory without an exposed entry comes out as the specification has it |
| FtsEnds.EveryReadShrinks | library/fts/fts.c:360-511 | every read that returns a node makes a measure smaller, whatever was stat'ed: no walk is endless |
| FtsEnds.NextOnOk | library/fts/fts.c:360-511 | and keeps the position well formed |
| FtsWalk.MovedRun | library/fts/fts.c:749-824 | a run of `fts_open` and two reads over a directory with one long name, under a `realloc` that moves: the existing regular file is shown as FTS_NS, whatever else the freed block reads as |
| FtsCursor.StepFollowsWalk | library/fts/fts.c:360-511 | at every position a read returns the head of the remaining walk, and nothing exactly when nothing remains |
| FtsCursor.FirstStep | library/fts/fts.c:424-438 | the first read starts the walk of the roots |
| FtsCursor.NextOk | library/fts/fts.c:360-511 | every step keeps the position well formed, for any instruction |
| FtsCursor.DistinctAncestors | library/fts/fts.c:955-961 | the directories above any node have as many identities as there are of them |
| FtsCursor.DepthBound | library/fts/fts.c:955-961 | on any file graph, cyclic or not, no position is deeper than there are directories, and none has a directory twice |
| FtsOrder.WalkNests | library/fts/fts.c:361-408 | each descended directory is shown once before and once after all its descendants, every other node once, at its level: the walk is a well-nested bracket word |
| FtsOrder.EntryNests | library/fts/fts.c:361-510 | the same below any node, with the stack left as it was |
| FtsOrder.ArrangeSorts | library/fts/fts.c:970-1001 | siblings come in directory order, or all pairs in comparator order; the same entries, each as often |
| FtsFast.FastScanIff | library/fts/fts.c:813-829 | in one directory the stat-skipping scan finds the same directories as the full one if and only if the link count suffices |
| FtsFast.FastWalkAgrees | library/fts/fts.c:664-673 | with right or unknown `d_type` and sufficient link counts, the whole FTS_NOSTAT walk visits the same directories and paths as the full walk |
| FtsFast.FastWalkFromArguments | library/fts/fts.c:664-673 | the same from the arguments of `fts_open` on |
| FtsShown.WalkSpelledIff | library/fts/fts.c:850-879 | on every visit of the walk the buffer spells the node's path if and only if no root is read and found empty while its path ends in '/' or ':' |
| FtsShown.PlainRootsSpelled | library/fts/fts.c:459-466 | so it does for all arguments that do not end in '/' or ':' |
| FtsShown.CutWalk | library/fts/fts.c:850-879 | an empty root of that kind: the string is shorter than `fts_pathlen` says |
| FtsPath.BasesAgreeIff | library/fts/fts.c:297-299 | the two places that append a child's name, which test different characters for ':', agree if and only if the path does not end in ":/"; the first looks in front of the buffer exactly for "/" |
| FtsPath.Pow2BitsRounds | library/fts/fts.c:1080-1097 | the bit-smearing loop gives the least power of two not below its argument, and zero exactly outside 1 to 2^31 |
| FtsPath.Pow2BitsIsCeil | library/fts/fts.c:1099-1103 | it is the block size that the model of the buffer uses, for every size up to 2^31 |
| FtsPath.Pow2Ceil | library/fts/fts.c:1099-1103 | a power of two that covers the request, and less than twice as large |
| FtsMemory.FollowingIsHead | library/fts/fts.c:259-263 | from the current node "fts_link, else fts_parent" leads through the live nodes one by one |
| FtsMemory.DropCurShape | library/fts/fts.c:411-426 | freeing the current node leaves the lists of all other live nodes intact |
| FtsMemory.DropCurContent | library/fts/fts.c:411-426 | and their values |
| FtsMemory.MarkCur | library/fts/fts.c:370-371 | a new `fts_info` changes the current node only |
| FtsSpec.ChildrenAreOk | library/fts/fts.c:743-840 | the entries of a directory are well formed below its ancestors |
| FtsSpec.RootListOk | library/fts/fts.c:136-175 | so are the roots, one for each argument |
| FtsSpec.UnusedShrinks | library/fts/fts.c:955-961 | descending uses up a directory identity: the measure by which the walk is finite |
| FtsStream.Fts.Open | library/fts/fts.c:96-213 | succeeds exactly without empty arguments, with the roots loaded in order; otherwise frees everything |
| FtsStream.Fts.MakeParent | library/fts/fts.c:123-133 | a buffer with room for every argument, and the roots' parent |
| FtsStream.Fts.MakeRoots | library/fts/fts.c:136-173 | the list of roots in argument order, or reversed for sorting |
| FtsStream.Fts.AddRoot | library/fts/fts.c:161-172 | a root at the front or the back of the list |
| FtsStream.Fts.MakeRoot | library/fts/fts.c:143-155 | a root's node, stat'ed by its own name, with "." and ".." made real directories |
| FtsStream.Fts.SortRoots | library/fts/fts.c:174-175 | the roots in comparator order |
| FtsStream.MaxArgLen | library/fts/fts.c:1159-1169 | the longest argument with its NUL |
| FtsStream.FreeRoots | library/fts/fts.c:1067-1078 | every root is freed, the parent is not |
| FtsStream.Fts.Load | library/fts/fts.c:215-242 | the buffer spells the root's path, its name is cut to the last component, the device is remembered |
| FtsStream.Fts.Read | library/fts/fts.c:316-511 | one step of the position, exactly, for every `realloc`; NULL exactly when the walk is over; the stream stays consistent, its buffer a power of two long |
| FtsStream.Fts.ReadFirst | library/fts/fts.c:424-438 | the first root becomes current |
| FtsStream.Fts.ReadLater | library/fts/fts.c:329-334 | a later read, with the instruction of the current node used up |
| FtsStream.Fts.ReadDirectory | library/fts/fts.c:360-409 | a directory in pre-order is skipped, or descended into |
| FtsStream.Fts.ReadNext | library/fts/fts.c:411-511 | the position after a finished node |
| FtsStream.Fts.NextSibling | library/fts/fts.c:424-466 | the sibling becomes current, its path in the buffer |
| FtsStream.Fts.NextRoot | library/fts/fts.c:431-438 | the next root is loaded |
| FtsStream.Fts.GoUp | library/fts/fts.c:468-510 | the parent in post-order, its path in the buffer |
| FtsStream.Fts.PutName | library/fts/fts.c:459-465 | the buffer spells the child's full path |
| FtsStream.Fts.SetSkip | library/fts/fts.c:520-533 | the instruction is the only change |
| FtsStream.Fts.Build | library/fts/fts.c:618-885 | the children in their final order on a new level, with what each holds when the buffer moves; or the directory marked unreadable or done; and the buffer's new size |
| FtsStream.Fts.EnterDir | library/fts/fts.c:718-726 | the buffer holds what precedes a child's name |
| FtsStream.Fts.ScanDir | library/fts/fts.c:741-840 | a list of new nodes for the visible entries, each fitting the buffer, with exactly the values that the code gives them, and the buffer's new size and block |
| FtsStream.Fts.AddChild | library/fts/fts.c:831-839 | the new node is hung behind the last one |
| FtsStream.Fts.AddEntry | library/fts/fts.c:748-829 | one entry's node, and exactly what it holds when the block moved |
| FtsStream.Fts.NewChild | library/fts/fts.c:748-799 | a node with its length and parent, and room for its path; whether the block moved |
| FtsStream.Fts.StatChild | library/fts/fts.c:816-824 | which path the node is stat'ed by |
| FtsStream.Fts.Unreadable | library/fts/fts.c:651-657 | the directory becomes FTS_DNR with its error |
| FtsStream.Fts.Empty | library/fts/fts.c:850-879 | the directory becomes FTS_DP, and what the buffer then shows |
| FtsStream.Fts.Settle | library/fts/fts.c:843-884 | a moved block is adjusted for and the new level sorted; the stream is consistent again |
| FtsStream.Fts.SortKids | library/fts/fts.c:881-884 | the new level in comparator order |
| FtsStream.SortList | library/fts/fts.c:993-1000 | the list is relinked in the order of `qsort`'s permutation, values unchanged |
| FtsStream.Relink | library/fts/fts.c:997-999 | each node links to the next of the array, the last to NULL, nothing else changes |
| FtsStream.Fts.StatNode | library/fts/fts.c:887-968 | the node takes the values of `stat` or `lstat`; for a cycle it also points to the ancestor with the same identity |
| FtsStream.Fts.FindCycle | library/fts/fts.c:955-960 | NULL exactly when no ancestor has the identity, otherwise the ancestor that has it |
| FtsStream.Fts.Alloc | library/fts/fts.c:1003-1056 | a new node; only the listed fields are set |
| FtsStream.Fts.Palloc | library/fts/fts.c:1105-1125 | the old characters in a block of the next power of two, perhaps elsewhere |
| FtsStream.Fts.Padjust | library/fts/fts.c:1131-1157 | after a move every live node but the roots' parent points into the new block |
| FtsStream.AdjustAll | library/fts/fts.c:1152-1156 | the loop reaches every live node once and stops at the roots' parent |
| FtsStream.FreeFrom | library/fts/fts.c:259-264 | the loop frees every live node, once, or only a dummy with a negative level |
| FtsStream.Fts.Close | library/fts/fts.c:244-289 | nothing stays allocated, with the exact exception |
| HashStream.HashPieces | library/crypt/crypt_sha256.c:99-163 | a message cut into any pieces gives the one-shot digest of the padded message |
| HashStream.Context.Update | library/crypt/crypt_md5.c:164-183 | the context holds the length, the fold over full blocks and the tail of the longer message |
| HashStream.Context.Sum | library/crypt/crypt_sha512.c:150-164 | the digest of the whole message |
| HashStream.Context.PadLast | library/crypt/crypt_sha512.c:116-136 | the last block: zeros and the length, compressed |
| HashStream.Context.Init | library/crypt/crypt_md5.c:142-149 | the context of the empty message |
| HashStream.Context.UpdateCycled | library/crypt/crypt_sha256.c:186-192 | `hashmd` adds the first n bytes of the digest repeated without end |
| HashStream.CycledAt | library/crypt/crypt_sha512.c:207-213 | byte i of those is byte i modulo the size of the digest |
| HashStream.PaddedFillsBlocks | library/crypt/crypt_md5.c:119-140 | the padding fills whole blocks, and no shorter one does |
| HashStream.FoldConcat | library/crypt/crypt_sha512.c:166-184 | folding a concatenation is folding the tail of the first part with the second |
| CryptDigest.Md5CryptHash | library/crypt/crypt_md5.c:246-284 | the hashing part of md5crypt is 1000 rounds over digests of plain concatenations |
| CryptDigest.ShaCryptHash | library/crypt/crypt_sha256.c:252-299 | the hashing part of the SHA crypts, with P and S derived once |
| CryptDigest.ShaRound | library/crypt/crypt_sha512.c:305-321 | one round, which repeats the key digest instead of storing P |
| CryptDigest.UpdateByBits | library/crypt/crypt_sha256.c:264-268 | one piece for every bit of the key's length, the lowest first |
| CryptSchemes.CryptMd5 | library/crypt/crypt_md5.c:226-304 | md5crypt from setting to hash: the parsed prefix and the printed digest, or nothing |
| CryptSchemes.CryptSha | library/crypt/crypt_sha256.c:194-322 | the same for the SHA crypts |
| CryptSchemes.CryptHashed | library/crypt/crypt_r.c:24-34 | for MD5 and SHA settings the streaming code gives what `Crypt` says for these hash functions, and its result is a setting for itself |
| Strtoul.ReadRounds | library/crypt/crypt_sha512.c:234-266 | the rounds field is the decimal number in it, with its bounds and rejections, although the sum is kept in 32 bits and overflows may go unnoticed |
| Strtoul.Convert | library/stdlib/strtoul.c:89-135 | the wrapping sum of the digits and the end of the number, or ULONG_MAX and no progress |
| Strtoul.SumIs | library/stdlib/strtoul.c:106-116 | a number that fits is read right; one that does not is noticed, or read as a number of at least a tenth of ULONG_MAX |
| Strtoul.NoticedIff | library/stdlib/strtoul.c:106-116 | an overflow is noticed if and only if the number in 32 bits becomes smaller from one digit to the next; otherwise the number modulo 2^32 is the result |
| Strtoul.OverflowMissed | library/stdlib/strtoul.c:106-116 | 10000000000 is read as 1410065408 |
| CryptSchemes.PrintGroups | library/crypt/crypt_md5.c:286-299 | the loop over a permutation table |
| CryptText.To64Loop | library/crypt/crypt_md5.c:218-224 | base-64 digits, the lowest first |
| CryptText.To64Injective | library/crypt/crypt_md5.c:218-224 | they determine the number |
| CryptText.EncodeMd5Injective | library/crypt/crypt_md5.c:286-301 | the 22 characters determine the 16 bytes |
| CryptText.EncodeSha256Injective | library/crypt/crypt_sha256.c:301-320 | the 43 characters determine the 32 bytes |
| CryptText.EncodeSha512Injective | library/crypt/crypt_sha512.c:323-377 | the 86 characters determine the 64 bytes |
| CryptR.Fixpoint | library/crypt/crypt_r.c:24-34 | for every key and setting a hash is a setting that gives the same hash by the same scheme, and fits 128 bytes with its NUL |
| CryptR.TokenDiffers | library/crypt/crypt_des.c:993-1025 | the failure token differs from the setting in its first character |
| CryptR.ChecksDigest | library/crypt/crypt_r.c:24-34 | checking a key against a hash succeeds if and only if the key fits and has the same digest |
| CryptR.HashesIff | library/crypt/crypt_r.c:24-34 | `crypt_r` makes a hash if and only if the setting has its scheme's form and the key its length |
| CryptR.ParseAgain | library/crypt/crypt_r.c:24-34 | parsing a result gives the plan that made it, for all five schemes |
| CryptR.Md5Again | library/crypt/crypt_md5.c:239-289 | the same for md5crypt |
| CryptR.ShaAgain | library/crypt/crypt_sha256.c:207-250 | for the SHA crypts, with a normalised rounds field |
| CryptR.RoundsAgain | library/crypt/crypt_sha512.c:235-266 | a printed number of rounds reads as itself |
| CryptR.NoRounds | library/crypt/crypt_sha256.c:213-250 | a salt is never taken for a rounds field |
| CryptR.BcryptAgain | library/crypt/crypt_blowfish.c:627-733 | for bcrypt, with the spare bits of the last salt character cleared |
| CryptR.DesAgain | library/crypt/crypt_des.c:906-990 | for both DES forms, also behind a '$' |
| CryptR.CanonicalIff | library/crypt/crypt_des.c:659-673 | printing the value of a character gives it back exactly for the alphabet |
| CryptR.EncodeDesInjective | library/crypt/crypt_des.c:969-988 | the 11 characters determine the 64 bits |
| CryptR.ReadSix | library/crypt/crypt_des.c:912-927 | four characters of the extended setting, all of the alphabet, as a number |
| CryptR.ScanSalt | library/crypt/crypt_sha256.c:246-250 | the salt's length, or a rejection exactly for ':' and newline in it |
| CryptR.NumberDecimal | library/crypt/crypt_sha256.c:242-243 | reading a printed number gives it back |
| BlowfishText.DecodeEncode | library/crypt/crypt_blowfish.c:385-437 | `BF_decode` undoes `BF_encode` for every length from one on |
| BlowfishText.EncodeDecode | library/crypt/crypt_blowfish.c:385-437 | and encoding gives a decoded text back if and only if its spare bits are zero |
| BlowfishText.DecodesIff | library/crypt/crypt_blowfish.c:376-406 | decoding succeeds exactly on texts of the alphabet |
| BlowfishText.DecodeLoop | library/crypt/crypt_blowfish.c:385-406 | the loop, with its stops inside a group |
| BlowfishText.EncodeLoop | library/crypt/crypt_blowfish.c:408-437 | the loop, with its carry |
| BlowfishText.DecodeLastHigh | library/crypt/crypt_blowfish.c:723-725 | of the last salt character only the two high bits count |
| BlowfishKey.SetKey | library/crypt/crypt_blowfish.c:508-607 | 18 big-endian words of the key and its NUL repeated; bit 16 of the first is flipped exactly when the safety flag is set, both expansions agree everywhere and a sign extension happened |
| BlowfishKey.NextWord | library/crypt/crypt_blowfish.c:555-573 | one word in both expansions, for any key length |
| BlowfishKey.AgreeIff | library/crypt/crypt_blowfish.c:556-574 | the expansions of a word agree if and only if every negative byte stands behind 0xff bytes only |
| BlowfishKey.ActionIff | library/crypt/crypt_blowfish.c:589-593 | the bit tricks at the end act exactly under the stated condition |
| BlowfishKey.CorrectIsBigEndian | library/crypt/crypt_blowfish.c:556-560 | the correct expansion is the big-endian word |
| BlowfishKey.CollisionNeedsFf | library/crypt/crypt_blowfish.c:521-527 | the safety measure touches only keys that hold the byte 0xff |
| BlowfishKey.PlainKeysAgree | library/crypt/crypt_blowfish.c:521-527 | for 7-bit keys all subtypes expand alike |
| Des.DesBack | library/crypt/crypt_des.c:763-854 | for every block, round keys, S-boxes, salt and count, reversed round keys undo `__do_des`, both ways |
| Des.DoDesLoops | library/crypt/crypt_des.c:763-854 | the table loops and rounds compute it |
| Des.IpLoop | library/crypt/crypt_des.c:769-781 | the table loop is the initial permutation, also where it is left out for a zero block |
| Des.FpLoop | library/crypt/crypt_des.c:838-853 | the table loop is the final permutation |
| Des.RoundLoop | library/crypt/crypt_des.c:783-833 | sixteen rounds and the exchange of the halves |
| Des.RoundsBack | library/crypt/crypt_des.c:791-833 | rounds with the keys reversed lead back |
| DesTables.FpIp | library/crypt/crypt_des.c:215-466 | the final permutation undoes the initial one |
| DesTables.IpFp | library/crypt/crypt_des.c:215-466 | and the other way round |
| DesTables.IpLWhole | library/crypt/crypt_des.c:215-297 | eight lookups in each half of the literal table are the left half of the permutation |
| DesTables.IpRWhole | library/crypt/crypt_des.c:298-380 | the right half |
| DesTables.FpLWhole | library/crypt/crypt_des.c:381-423 | the same for the final permutation |
| DesTables.FpRWhole | library/crypt/crypt_des.c:424-466 | its right half |
| DesEncrypt.EncryptBack | library/crypt/encrypt.c:30-58 | decrypting an encrypted block, or the reverse, gives the low bits of the block, so any 0/1 block itself |
| DesEncrypt.Encryptor.Encrypt | library/crypt/encrypt.c:30-58 | the block in place, with the round keys reversed for decryption |
| DesEncrypt.Encryptor.ReadHalf | library/crypt/encrypt.c:37-41 | 32 characters' low bits as a word |
| DesEncrypt.Encryptor.WriteHalf | library/crypt/encrypt.c:54-57 | a word as 32 characters, the rest of the block unchanged |
| DesEncrypt.PackUnpack | library/crypt/encrypt.c:36-57 | packing the bits of a word gives the word |
| DesEncrypt.UnpackPack | library/crypt/encrypt.c:36-57 | unpacking a packed half gives its low bits |
| IconvLoop.AnySchedule | library/iconv/iconv.c:118-566 | whatever the sizes of the output buffers, the calls write what the unbounded conversion writes, and stop where and why it stops |
| IconvLoop.EnoughRoomIff | library/iconv/iconv.c:406-566 | one call does the whole conversion if and only if its output fits |
| IconvLoop.ScheduleEnds | library/iconv/iconv.c:118-566 | with eight bytes of room in each call, one call for every input byte (and one for none) is enough |
| IconvLoop.CallResumes | library/iconv/iconv.c:118-566 | a call stopped by E2BIG leaves exactly the rest of the conversion |
| IconvLoop.CallTakesFront | library/iconv/iconv.c:120 | a call takes a front part of the input |
| IconvLoop.CutInput | library/iconv/iconv.c:120-404 | converting the input in two parts, with what the first left over, converts the whole |
| IconvLoop.DecodeMore | library/iconv/iconv.c:124-404 | more input changes nothing about a step that was not starved |
| IconvCall.Descriptor.Convert | library/iconv/iconv.c:98-567 | the call: cursors and lengths move together, whole characters only, state kept, result and error |
| IconvCall.Buffers.Put | library/iconv/iconv.c:406-566 | the output holds the bytes at the cursor and is unchanged elsewhere |
| Iconv.DecodeSteps | library/iconv/iconv.c:124-404 | every step takes input that is there, or finds the byte order: the loop ends despite steps of length zero |
| Iconv.EncodeWrites | library/iconv/iconv.c:406-566 | every character writes between one and eight bytes |
| Iconv.UniToJisLoop | library/iconv/iconv.c:79-96 | the binary search |
| Iconv.SearchSound | library/iconv/iconv.c:79-96 | what it returns is a place of the code point, whatever the order of the list |
| Iconv.SearchComplete | library/iconv/iconv.c:79-96 | in a sorted list it finds every code point |
| IconvRoundTrip.RoundTripIff | library/iconv/iconv.c:190-279 | text in UTF-32 sent to UTF-16BE/LE, EUC-JP, Shift_JIS, ISO-2022-JP or ASCII without replacement comes back if and only if it is not ISO-2022-JP with an escape character |
| IconvRoundTrip.RoundTrip | library/iconv/iconv.c:444-549 | under that condition the way back ends in the initial state with nothing replaced |
| IconvRoundTrip.EscIsLost | library/iconv/iconv.c:231-257 | a text with an escape character does not come back |
| IconvRoundTrip.Reads | library/iconv/iconv.c:231-279 | one encoded character is read back, between ASCII states |
| IconvRoundTrip.Forward | library/iconv/iconv.c:135-147 | the way out writes the encoded characters and counts the replaced ones |
| IconvRoundTrip.Back16 | library/iconv/iconv.c:148-164 | surrogate pairs are read back |
| IconvRoundTrip.BackShiftJis | library/iconv/iconv.c:190-213 | Shift_JIS pairs are read back |
| IconvRoundTrip.BackEucJp | library/iconv/iconv.c:214-230 | EUC-JP pairs are read back |
| IconvRank.RankLoop | library/iconv/iconv.c:305-314 | the loop ends, for every table and start |
| IconvRank.RankFinds | library/iconv/iconv.c:305-314 | on a code point outside the table from which as many table entries must be taken as give the index |
| IconvRank.RankReaches | library/iconv/iconv.c:385-394 | if the entries from the first code point on are distinct, every unmapped code point is reached from its index |
| IconvRank.RankIncreases | library/iconv/iconv.c:385-394 | strictly increasing: a bijection |
| Argz.Create | library/argz/create.c:25-39 | the measured length is what is copied, and the buffer is the list's vector |
| Argz.ListVector | library/argz/create.c:25-39 | the buffer tells its list |
| Argz.CreateSep | library/argz/create_sep.c:33-61 | the vector of the fields, in a buffer longer by the caller's starting length |
| Argz.MeasureFields | library/argz/create_sep.c:33-37 | the first pass counts the fields and their room |
| Argz.Stringify | library/argz/stringify.c:17-21 | every NUL but the last becomes the separator |
| Argz.JoinedSplit | library/argz/stringify.c:17-21 | joining the fields of a string gives the string, empty fields too |
| Argz.SplitJoined | library/argz/create_sep.c:33-61 | splitting what was joined gives the list if and only if no string holds the separator |
| Argz.Count | library/argz/count.c:17-21 | the number of NULs |
| Argz.NulsVector | library/argz/count.c:17-21 | which is the number of strings |
| Argz.Next | library/argz/next.c:14-31 | from string k to string k + 1, and NULL behind the last |
| Argz.Iterate | library/argz/next.c:14-31 | stepping recovers the list |
| Argz.Extract | library/argz/extract.c:16-27 | every slot is right, but the second when the first string is empty, which keeps its old value |
| ArgzReplace.Replace | library/argz/replace.c:40-99 | where the loops end, the buffer becomes the vector of the replaced strings; length and count are exact |
| ArgzReplace.ScanEndsIff | library/argz/replace.c:55-60 | the loops end if and only if the search string is not empty or the buffer has no NUL, so is empty |
| ArgzReplace.StuckAtNul | library/argz/replace.c:18-29 | at a NUL the empty string is found, and neither cursor nor length moves |
| ArgzReplace.ReplacedList | library/argz/replace.c:70-83 | it holds the list with every string replaced, as many strings as before |
| ArgzReplace.ReplaceVector | library/argz/replace.c:55-83 | no occurrence crosses a NUL: replacing in the buffer is replacing in each string, and the counts add up |
| ArgzReplace.FindStr | library/argz/replace.c:13-37 | the leftmost occurrence, without running over the buffer's end; for an empty string the first NUL |
| ArgzReplace.FindLeftmost | library/argz/replace.c:18-29 | nothing occurs in front of it |
| ArgzReplace.Measure | library/argz/replace.c:55-60 | the count, and the new length modulo 2^32 although the difference may wrap |
| ArgzReplace.Rewrite | library/argz/replace.c:62-83 | the second scan fills exactly the measured buffer |
| Swab.Swab24 | library/byteswap/swab24.c:6-54 | for every length, all whole 3-byte words reversed and nothing else touched, to another place or in place |
| Swab.Swab64 | library/byteswap/swab64.c:13-63 | the same for 8-byte words |
| Swab.AfterTwice | library/byteswap/swab24.c:6-54 | in place, twice is the identity |
| Swab.SwabTwice | library/byteswap/swab64.c:13-63 | reversing the words twice gives them back |
| Swab.SwapTwelve | library/byteswap/swab24.c:16-35 | the unrolled turn is four word reversals |
| Swab.TwelveBytes | library/byteswap/swab24.c:17-28 | the rotates and inserts on three registers |
| Swab.SwapThree | library/byteswap/swab24.c:43-51 | the remainder loop's turn |
| Swab.SwapEight | library/byteswap/swab64.c:21-28 | two reversed loads, stored crosswise |

## Left out

- FtsWalk.WalkAll: the caller decides on a skip by what it sees of the node, not by what it saw before; WalkSome takes any sequence of skips, but speaks about memory only.
- FtsStream.Fts.Padjust: pointers have no offset into the block, since `fts_accpath` always points to its start when chdir is not used.
- FtsStream.Fts.Open: asks for arguments other than "/" and those that end in ":/"; BasesAgreeIff says what the code does with them.
- fts with chdir, FTS_AGAIN and FTS_FOLLOW, instructions on unvisited siblings, `fts_children`, whiteouts, failing `malloc` and FTS_STOP.
- fts with no roots (`fts_read` then follows a freed parent), truncation of lengths to 32 bits, the growth of `fts_array`.
- The compression functions of MD5, SHA-256 and SHA-512, the S-boxes, `__des_setkey`, `BF_encrypt` and the bcrypt rounds: parameters, since the results hold for all of them.
- The self-tests of the crypt functions, taken to pass; signedness and width of `char` beyond what is stated.
- iconv from and to UTF-8, BIG5 and the legacy 8-bit pages, whose reverse search uses the source's type; `find_charmap`; the contents of the tables.
- IconvRoundTrip.RoundTrip: UTF-16 and UCS-2 without a stated byte order, where a leading mark is taken as such, and UCS-2, which writes U+FFFD for what it lacks.
- IconvRank.RankLoop: numbers are not 32 bits wide; the real indices stay far below.
- ArgzReplace.Replace: asks for what ScanEndsIff says the code needs to end, and for a result below 2^32 bytes.
- Argz.Stringify: asks for a buffer of at least one byte: `argz_len - 1` is unsigned and inside the buffer exactly then (BoundsInside).
- Argz.Extract: asks for a buffer of at least two bytes: `argz_len - 2` is unsigned and inside the buffer exactly then (BoundsInside).
- HashStream: message lengths are counted modulo 2^64 bits, as in the code, also for SHA-512.
- argz_insert, argz_add, argz_append, argz_delete and envz.
- Swab.Swab24: source and destination that overlap without being the same, and lengths that are negative as `ssize_t`.
- swab, swab32 and the single-word `bswap` functions.
