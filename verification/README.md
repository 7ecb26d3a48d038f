# Verified models of the webmail back end

Dafny models of the algorithmic cores of the C libraries under `wmail/` (and of the
second MD5 under `License/`), and proofs of what those cores promise. To check
everything: `dafny verify dfyconfig.toml`.

What each group of modules is about, and its main results:

- **Hashes.** `Md5` is RFC 1321 as a fold over padded blocks. `CourierMd5` and `RsaMd5` are
  the two streaming implementations, proved to compute it for every split of a message
  into chunks. `Hmac` builds HMAC-MD5 from saved and restored states (`Authenticate`),
  `Md5Crypt` is the thousand-round password hash (`CryptRedhat`, `CryptAgain`).
- **CRAM.** `Base64` decodes in place, `Cram` holds both ends of the exchange; `Session` runs
  them against each other.
- **Searching.** `SearchEngine` is the automaton with its table (`Search`).
- **Maildir quotas.** `QuotaFile` is the text of the `maildirsize` file, `QuotaLedger` the
  operations on it and on the maildir (`Perform`, `WithinThroughout`), `MaildirNames` the sizes inside file names, `Decimal` the
  printer that they share.
- **Locking.** `DotLock` interleaves the system calls of any number of processes (`Safety`).
- **Text formats.** `MimeHeader` (`RoundTrip`), `FilterRules`, `FilterFile`, `FilterReload`,
  `FilterLines` and `FilterList` (`SaveLoad`, `LoadRules`), `Cgi` and `CgiRequest`
  (`QueryBack`, `FormValues`).
- **Calendar daemon.** `GmTime` (`PcpGmTime`, `StrBack`), `AuthToken` (`TokenLives`),
  `TimerQueue` (`RunAll`, `QueueIsLogSorted`, `QueueIsArmed`), `EventTimes` (`SortTimes`).

`Bytes`, `CStrings` and `Links` hold what several modules share: octets and words, C strings,
and doubly linked lists. `Md5Suite` and `FilterSuite` prove what the repository's own test suites
expect. Code that changes things in place is modelled by methods on
arrays and objects, each proved against a function whose properties are then lemmas.

Where the code does something other than its comments or its purpose suggest, the model follows
the code and the difference is a lemma:

- The length field of `wmail/md5/md5.c` is computed in 32 bits: it is wrong for messages
  from 2^32 bytes on (`CourierMd5.LengthBytesExact`), and in an HMAC already for texts within
  64 bytes of that (`Hmac.LengthExactFor`). In the password hash it is wrong for passwords from
  about 2^31 bytes on (`Md5Crypt.LengthsRight`).
- A response digit that is not hexadecimal is not refused but read as -1 (`Cram.NoDigits`), so a
  response of other characters can pass too, if and only if the HMAC has an octet with a digit f
  (`Cram.NotOnlyDigitsPass`).
- A delivery that names a quota below what is in the maildir is refused, but the quota is written
  all the same (`QuotaLedger.LowerQuotaBreaks`).
- A lock file that cannot be read is removed when it is old, even if its owner is alive and on the
  same host, and then two processes hold the lock (`DotLock.LockLost`); the exact condition for a
  run to be safe is `DotLock.SafeExactly`.
- A file name with two size tags is read by its last tag but written at its first
  (`MaildirNames.SecondTagHides`, `MaildirNames.RequotaReadBack`).
- A set like `[a-z]` in a filter pattern is refused (`FilterRules.RangeRefused`). The error for a
  bad rule type is never given, because the code sets it and goes on; so it has no place
  among the codes of `FilterRules`.
- A filter rule whose folder name has 200 characters and no dot is accepted, but its file can
  no longer be loaded (`FilterLines.LongFolder`); a sender of 512 characters or more is cut
  (`FilterLines.LongSender`).
- The name of an autoresponder keeps blanks before it, since only what strtok cuts off is
  lost (`FilterFile.BlankKept`).
- `cgi_multiple` leaves out separators as long as all values so far were empty
  (`Cgi.WrittenIsJoin`), and percent codes with small letters are not understood
  (`Cgi.SmallLetter`).
- `pcp_gmtime` returns 0 both for failure and for the first second of 1970 (`GmTime.PcpGmTime`).

## Model

| member | source | states |
|---|---|---|
| Md5.AbsorbConcat | wmail/md5/md5.c:162-190 | Absorbing two runs of whole blocks one after the other is absorbing their concatenation, so a saved chaining state can be gone on from. |
| Md5.DecodeEncode | wmail/md5/md5.c:238-269 | Writing the four words as 16 octets and reading them back (from the last octet to the first in the source) gives the same state. |
| Md5.RepresentsBlock | wmail/md5/md5.c:162-190 | Completing the buffered block keeps the correspondence: the state represents everything fed, with an empty buffer. |
| Md5.RepresentsTail | wmail/md5/md5.c:177-183 | Bytes that do not complete a block only join the buffer; what the context represents is what was fed. |
| Md5Suite.Letters | wmail/md5/md5test.txt:6 | The digest of the small letters is the one that the test suite expects (section A.5 of RFC 1321), computed through all 64 steps; so every constant, shift, word and auxiliary function is the right one. |
| CourierMd5.Group1 | wmail/md5/md5.c:76-94 | The sixteen unrolled steps of round 1 with their rotating registers are steps 0 to 15 of RFC 1321 section 3.4. |
| CourierMd5.Group2 | wmail/md5/md5.c:96-114 | Likewise round 2: steps 16 to 31. |
| CourierMd5.Group3 | wmail/md5/md5.c:116-134 | Likewise round 3: steps 32 to 47. |
| CourierMd5.Group4 | wmail/md5/md5.c:136-154 | Likewise round 4: steps 48 to 63. |
| CourierMd5.Context.Hash | wmail/md5/md5.c:48-160 | One block changes the state by the compression function of RFC 1321, in 32-bit words. |
| CourierMd5.Context.HashStream | wmail/md5/md5.c:162-190 | Any chunk, however it meets the buffer, extends the represented message by exactly that chunk. |
| CourierMd5.LengthBytesExact | wmail/md5/md5.c:213-233 | The length field that is written is the 64-bit count of RFC 1321 section 3.2 if and only if the length modulo 2^61 is below 2^32; longer messages get a wrong field. |
| CourierMd5.Context.EndStream | wmail/md5/md5.c:192-236 | Pads the message fed with 0x80, the least number of zeros, and the length field of the length it is told. |
| CourierMd5.Context.GetDigest | wmail/md5/md5.c:238-250 | The digest encodes the fold of the compression function over all blocks fed since the last start or restore. |
| CourierMd5.Context.Restore | wmail/md5/md5.c:252-269 | A restored context goes on from the saved state, with nothing fed. |
| CourierMd5.Md5Digest | wmail/md5/md5.c:271-279 | The one-call digest is the MD5 of RFC 1321, for every message the 32-bit length parameter can describe. |
| CourierMd5.DigestOfChunks | wmail/md5/md5.c:162-279 | Whatever the chunks, the digest is that of their concatenation (if its length is one that the length field can hold). |
| RsaMd5.Group1 | License/md5/md5c.c:197-213 | Round 1 of the second implementation is steps 0 to 15 of the same specification. |
| RsaMd5.Group2 | License/md5/md5c.c:215-232 | Round 2 is steps 16 to 31. |
| RsaMd5.Group3 | License/md5/md5c.c:234-250 | Round 3 is steps 32 to 47. |
| RsaMd5.Group4 | License/md5/md5c.c:252-268 | Round 4 is steps 48 to 63. |
| RsaMd5.CountCarry | License/md5/md5c.c:128-132 | Adding the bits of a chunk to the two 32-bit halves of the count, with the carry found by comparison, is adding the chunk length to the byte count. |
| RsaMd5.Context.AddBits | License/md5/md5c.c:125-132 | The two count words hold the bit count of everything fed, and the index is the byte count modulo 64. |
| RsaMd5.Context.Transform | License/md5/md5c.c:189-278 | The unrolled transform is the same compression function as in the other implementation. |
| RsaMd5.Context.Update | License/md5/md5c.c:118-155 | Any chunk extends the represented message by exactly that chunk. |
| RsaMd5.WrapsExactly | License/md5/md5c.c:144-145 | The index of the loop wraps around on its way to the end of the chunk if and only if the buffered octets and the chunk come to 2^32. |
| RsaMd5.LastPlace | License/md5/md5c.c:144-145 | The loop then goes on with less than a block left. |
| RsaMd5.PadLength | License/md5/md5c.c:172-174 | The padding length chosen by cases is one byte more than the number of zeros of RFC 1321 section 3.1. |
| RsaMd5.Context.Final | License/md5/md5c.c:160-185 | The digest is the MD5 of RFC 1321 of everything fed, and the context is wiped. |
| RsaMd5.DigestOfChunks | License/md5/md5c.c:102-185 | For every message and every split into chunks, the digest is that of the whole message; with CourierMd5.DigestOfChunks the two implementations agree. |
| Hmac.ResumeIsDigest | wmail/libhmac/hmac.c:138-151 | Restoring the digest taken after one block, hashing a text and ending with the text length plus 64 gives the MD5 of block and text together. |
| Hmac.HmacFromStates | wmail/libhmac/hmac.c:138-151 | From the two saved key states the two-phase computation gives HMAC-MD5 as defined in section 2 of RFC 2104, for keys shorter and longer than a block. |
| Hmac.HmacOfBlock | wmail/libhmac/hmac.c:70-151 | For a key of one block, the two nested hashes with 0x36 and 0x5C, bit by bit. |
| Hmac.ShortKey | wmail/libhmac/hmac.c:78-86 | A key shorter than a block is filled up with zeros: one zero more changes nothing. |
| Hmac.LongKey | wmail/libhmac/hmac.c:51-54 | A key longer than a block, and no other, is replaced by its digest. |
| Hmac.LengthExactFor | wmail/libhmac/hmac.c:144 | For a 32-bit text length the inner length field is right if and only if the length plus 64 is below 2^32. |
| Hmac.SaveKeyState | wmail/libhmac/hmac.c:70-105 | The key, filled up with zeros and xored with the pad, is absorbed as one block and the state saved. |
| Hmac.HashKey | wmail/libhmac/hmac.c:29-105 | Both key states are those of the key, or of its digest if it is longer than a block. |
| Hmac.ResumeHash | wmail/libhmac/hmac.c:142-150 | One phase: from a saved state and a text to the digest of the resumed message. |
| Hmac.HashText | wmail/libhmac/hmac.c:118-151 | Both phases, one resumed from each saved state. |
| Hmac.Authenticate | wmail/libhmac/hmac.c:29-151 | hmac_hashkey followed by hmac_hashtext is HMAC-MD5 of section 2 of RFC 2104 for every key and every text whose length plus 64 stays below 2^32. |
| Md5Crypt.CryptAgain | wmail/md5/redhat-crypt-md5.c:15-126 | Crypting again with the output as the salt reproduces the output, for all passwords and salts. |
| Md5Crypt.SaltOfResult | wmail/md5/redhat-crypt-md5.c:25-29 | The salt that is read out of a result is the salt that was printed into it. |
| Md5Crypt.PrintedInjective | wmail/md5/redhat-crypt-md5.c:110-125 | Different digests are printed differently. |
| Md5Crypt.CryptSeparates | wmail/md5/redhat-crypt-md5.c:15-126 | Equal outputs come only from equal effective salts and equal final digests. |
| Md5Crypt.FeedSpread | wmail/md5/redhat-crypt-md5.c:43-49 | The digest is fed repeatedly, cut to the length of the password. |
| Md5Crypt.FeedDigits | wmail/md5/redhat-crypt-md5.c:51-57 | One byte for each binary digit of the password length is fed, and the running length counts them. |
| Md5Crypt.FirstPart | wmail/md5/redhat-crypt-md5.c:31-61 | The lengths given to endstream are the numbers of bytes fed, so the first two digests are whole-message MD5 digests. |
| Md5Crypt.Round | wmail/md5/redhat-crypt-md5.c:65-103 | Each of the thousand rounds is the whole-message MD5 of a message chosen by the round number. |
| Md5Crypt.Print | wmail/md5/redhat-crypt-md5.c:110-125 | The printing loop writes the permuted digest in groups of six bits. |
| Md5Crypt.SixIs | wmail/md5/redhat-crypt-md5.c:110-125 | A group is four characters, six bits at a time from the lowest. |
| Md5Crypt.SixtyIs | wmail/md5/redhat-crypt-md5.c:12-13 | The alphabet of the output, character by character. |
| Md5Crypt.SpreadAt | wmail/md5/redhat-crypt-md5.c:43-49 | Octet k of what is fed for a password is octet k modulo 16 of the digest. |
| Md5Crypt.DigitsAt | wmail/md5/redhat-crypt-md5.c:51-58 | Octet k is a NUL or the first of the password as binary digit k of the length is 1 or 0. |
| Md5Crypt.FirstDigestIs | wmail/md5/redhat-crypt-md5.c:31-61 | The message before the rounds, in its parts. |
| Md5Crypt.CryptIs | wmail/md5/redhat-crypt-md5.c:15-126 | The result in its parts, after a thousand rounds. |
| Md5Crypt.LengthsRight | wmail/md5/redhat-crypt-md5.c:31-103 | All the lengths given to endstream, cut to 32 bits, give the length fields of RFC 1321 if and only if twice the password length, the salt length and 34 add up to less than 2^32. |
| Md5Crypt.CryptRedhat | wmail/md5/redhat-crypt-md5.c:15-126 | For every such password the program refines the pure definition of the construction over whole-message MD5. |
| Base64.DecodeEncode | wmail/authlib/authsaslfrombase64.c:24-52 | Every encoding of section 6.8 of RFC 2045 is accepted and decodes to what was encoded. |
| Base64.LetterIs | wmail/authlib/authsaslfrombase64.c:17-20 | The alphabet, character by character. |
| Base64.FourLettersAre | wmail/authlib/authsaslfrombase64.c:43-50 | Four letters are the digits to base 64 of the number that three octets are. |
| Base64.LastLetters | wmail/authlib/authsaslfrombase64.c:46-50 | One or two octets at the end are filled up with zeros and pads. |
| Base64.BuildTable | wmail/authlib/authsaslfrombase64.c:15-22 | The table holds the value of each letter and 100 for everything else. |
| Base64.Scan | wmail/authlib/authsaslfrombase64.c:24-31 | The scan accepts exactly the strings the specification accepts, and finds where the coded body ends. |
| Base64.DecodeBody | wmail/authlib/authsaslfrombase64.c:33-52 | Decoding in place: each group is read before it is overwritten, and the written part is at most three quarters of the read part. |
| Base64.FromBase64 | wmail/authlib/authsaslfrombase64.c:11-53 | In place in any buffer: refused strings leave it alone; otherwise the decoded octets stand at the front of the string and nothing else in the buffer changes. |
| Cram.FromHexHex | wmail/authlib/cramlib.c:41-51 | Reading back printed hex gives the octets. |
| Cram.VerifyCram | wmail/authlib/cramlib.c:28-70 | Accepts exactly if the lengths fit, the stored secret is hex, and the response reads as the keyed hash from the stored state; a response digit that is not hex is read as -1, as the source does. |
| Cram.ExpectedIsHmac | wmail/authlib/cramlib.c:53-55 | For a secret stored for a password, the expected response is HMAC-MD5 of that password and the challenge. |
| Cram.ExpectedOfStates | wmail/authlib/cramlib.c:42-55 | Of the stored secret, the first half is the outer state and the second the inner one. |
| Cram.WhatPasses | wmail/authlib/cramlib.c:57-67 | A response of hex digits passes if and only if it spells that HMAC, in capital or small letters. |
| Cram.NoDigits | wmail/authlib/cramlib.c:20-26 | Characters that are no digits pass for an octet: zz for EF. |
| Cram.OctetPasses | wmail/authlib/cramlib.c:57-67 | Exactly which two characters pass for an octet: its two digits, or -1 in place of one or of both where the sum comes out the same. |
| Cram.NotOnlyDigitsPass | wmail/authlib/cramlib.c:57-67 | Some response that is not all digits passes if and only if some octet of the HMAC has a digit f. |
| Cram.Answer | wmail/authlib/authsaslclientcram.c:24-88 | The client refuses a challenge that is not base64 and otherwise answers with the code of user, blank and the hex of the HMAC of the decoded challenge. |
| Cram.Strtok | wmail/authlib/cramlib.c:81-82 | The tokenizer cuts the next line out of the buffer and leaves the rest readable. |
| Cram.DecodeBoth | wmail/authlib/cramlib.c:93-94 | The challenge and the response are each decoded where they stand, and the first does not disturb the second. |
| Cram.Split | wmail/authlib/cramlib.c:92-119 | The decoded response is cut at its first blank into user and response; without a blank, or if either decoding fails, access is refused. |
| Cram.GetCram | wmail/authlib/cramlib.c:72-120 | Which of the two errors is given, or which hash, user, challenge and response, for every line of data, in place. |
| Cram.SplitAnswer | wmail/authlib/cramlib.c:101-112 | The user comes back whole if and only if it holds no blank; otherwise the response is too long to be accepted. |
| Cram.Session | wmail/authlib/authsaslclientcram.c:39-77 | Completeness as in section 2 of RFC 2195: the client's answer is accepted by the server against the stored key state, for that user, if and only if the user name holds no blank and the challenge is not empty. |
| SearchEngine.OverlapsNest | wmail/maildir/maildirsearch.h:65-68 | Below an overlap of pattern and text, the shorter overlaps are exactly its borders. |
| SearchEngine.OccursSnoc | wmail/maildir/maildirsearch.h:56-57 | A character completes an occurrence exactly if the whole pattern becomes an overlap. |
| SearchEngine.Advance | wmail/maildir/maildirsearch.h:65-66 | On a match the longest overlap grows by one. |
| SearchEngine.Retreat | wmail/maildir/maildirsearch.h:67-68 | After a mismatch no overlap is lost by going back to the longest border that is followed by another character. |
| SearchEngine.Nothing | wmail/maildir/maildirsearch.h:67 | A mismatch at the start of the pattern leaves no overlap at all. |
| SearchEngine.ShiftFinds | wmail/maildir/maildirsearch.c:27-34 | One shift of the pattern against itself finds, for one place, the border that belongs to it. |
| SearchEngine.BuildTable | wmail/maildir/maildirsearch.c:24-34 | r[k] is the longest border of the first k characters that is followed by a character other than the one at k, or 0. |
| SearchEngine.Engine.Start | wmail/maildir/maildirsearch.c:11-38 | Starting leaves the engine with a true table and nothing fed. |
| SearchEngine.Engine.Step | wmail/maildir/maildirsearch.h:59-71 | A character keeps the invariant: until the pattern occurs, i is the longest prefix of it that the text ends with; the inner turns so far are at most twice the characters fed, less i. |
| SearchEngine.Engine.Found | wmail/maildir/maildirsearch.h:56-57 | Found if and only if the pattern occurs in what was fed. |
| SearchEngine.Search | wmail/maildir/maildirsearch.h:54-71 | For every pattern and text: found if and only if it occurs, with at most twice as many inner turns as characters. |
| Decimal.StrOffT | wmail/numlib/strofft.c:14-37 | The backward loop prints the decimal number, with a sign if it is negative. |
| Decimal.ValueOfNat | wmail/numlib/strofft.c:27-31 | Reading the printed digits gives the number. |
| Decimal.LengthOfNat | wmail/numlib/strofft.c:27-31 | A number below 10^k takes at most k digits. |
| QuotaFile.DoAddQuota | wmail/maildir/maildirquota.c:525-587 | Writes the quota line, if the file is new, and one record, in the padded form. |
| QuotaFile.ParseQuotaStr | wmail/maildir/maildirquota.c:225-251 | The scanning loop computes what the grammar of quotas says, for every string. |
| QuotaFile.ParsePrinted | wmail/maildir/maildirquota.c:536-564 | A printed quota is parsed back, with either, both or neither limit. |
| QuotaFile.ParseBoth | wmail/maildir/maildirquota.c:225-249 | A number before an S limits the bytes, a number before a C the messages. |
| QuotaFile.ScanRecordLine | wmail/maildir/maildirquota.c:217 | A printed record is scanned back, with negative numbers and numbers wider than their columns. |
| QuotaFile.OpenQuotaFile | wmail/maildir/maildirquota.c:153-223 | The reading loop gives the quota, the sum and number of the records, or, from 5120 bytes on, only the quota and the need for a recount. |
| QuotaFile.ReadWritten | wmail/maildir/maildirquota.c:153-223 | A file written with a quota and extended by any signed records is read back as that quota, their sum and their number while it is under 5120 bytes; from there on as a file to be recounted. |
| QuotaFile.WrittenMore | wmail/maildir/maildirquota.c:566-584 | Appending a record appends to the sum. |
| QuotaFile.RecordLength | wmail/maildir/maildirquota.c:566-570 | A record of numbers of at most 19 digits takes at most 42 bytes. |
| QuotaFile.RecordColumns | wmail/maildir/maildirquota.c:566-570 | Bytes and messages stand in columns of at least 8 and 4 characters. |
| QuotaFile.CompactLength | wmail/maildir/maildirquota.c:536-570 | A newly counted file takes at most 84 bytes. |
| MaildirNames.Matches | wmail/maildir/maildirfilename.c:107-149 | The loop over two names says yes if and only if their normal forms, without size tags and flags, are equal; matching is therefore an equivalence. |
| MaildirNames.FlagsDisregarded | wmail/maildir/maildirfilename.c:125-126 | Whatever follows the separator makes no difference to what a name matches. |
| MaildirNames.NormalPlain | wmail/maildir/maildirfilename.c:107-149 | A name with neither tag nor separator matches as it is. |
| MaildirNames.FoundByFlags | wmail/maildir/maildirfilename.c:61-153 | A message is found by its name with other flags. |
| MaildirNames.Lookup | wmail/maildir/maildirfilename.c:61-153 | The name itself if it is there, else the first entry of the same normal form, else the name itself; names with a slash or a leading dot are refused. |
| MaildirNames.RequotaName | wmail/maildir/maildirrequota.c:15-43 | The loop assembles the name with the tag put in place of the first tag, before the flags, or at the end. |
| MaildirNames.RequotaNormal | wmail/maildir/maildirrequota.c:25-42 | Writing a size into a name does not change what it matches. |
| MaildirNames.LastRequotaWins | wmail/maildir/maildirrequota.c:25-42 | Of two sizes written only the last is left. |
| MaildirNames.ParseQuotaName | wmail/maildir/maildirparsequota.c:15-44 | The two loops find the last tag before the flags and its number. |
| MaildirNames.RequotaParsed | wmail/maildir/maildirparsequota.c:20-43 | What is read after a size was written: that size, unless another tag comes behind the first, whose value then hides it. |
| MaildirNames.RequotaReadBack | wmail/maildir/maildirparsequota.c:20-43 | The written size is read back if and only if there is no later tag, or it says the same. |
| MaildirNames.SecondTagHides | wmail/maildir/maildirparsequota.c:25-42 | A name with two tags where the size just written is not the one read. |
| QuotaLedger.CountFileName | wmail/maildir/maildirquota.c:769-795 | The loop says no exactly for names whose flags mark them as deleted. |
| QuotaLedger.DoCount | wmail/maildir/maildirquota.c:698-748 | The count of a directory: sizes from the names where they tell one, else from the files. |
| QuotaLedger.CountAll | wmail/maildir/maildirquota.c:397-431 | The recount: inbox and every folder but the trash, both new and cur. |
| QuotaLedger.DeletedNotCounted | wmail/maildir/maildirquota.c:769-795 | A message counts if and only if there is no T among its flags. |
| QuotaLedger.FolderCounted | wmail/maildir/maildirquota.c:679-696 | Of the entries with a dot before them, all but . and .. and the trash are counted. |
| QuotaLedger.CountFilesUpdate | wmail/maildir/maildirquota.c:698-748 | Exchanging one file changes the count by the difference of the two. |
| QuotaLedger.CountSubsUpdate | wmail/maildir/maildirquota.c:679-696 | Exchanging one folder changes the recount by the difference, or not at all if it is not counted. |
| QuotaLedger.CheckOneQuota | wmail/maildir/maildirquota.c:299-320 | Within the limit, or no limit, if and only if it succeeds; and the percentage that is used. |
| QuotaLedger.PercentUsedClose | wmail/maildir/maildirquota.c:315-318 | The percentage is 100 times the size by the quota, rounded down, up to a quota of 20000000, and at most one off beyond it. |
| QuotaLedger.CheckQuota | wmail/maildir/maildirquota.c:275-297 | Succeeds if and only if each total, bytes and messages, is at most its limit or has none; the percentage is the larger of the two. |
| QuotaLedger.PercentageBounded | wmail/maildir/maildirquota.c:315-318 | Scaling both numbers down before dividing never gives more than 100. |
| QuotaLedger.Maildir.OpenQuota | wmail/maildir/maildirquota.c:62-223 | Opening tells the truth: quota, sum and number of records of the file, or that it must be recounted. |
| QuotaLedger.Maildir.CheckQuotaFor | wmail/maildir/maildirquota.c:356-513 | Succeeds if and only if the recount plus the extra fits, whether or not it recounts; a recount rewrites the file to one true record. |
| QuotaLedger.Maildir.SetQuota | wmail/maildir/maildirquota.c:921-930 | A new quota replaces the old one and the ledger still adds up. |
| QuotaLedger.Maildir.AddStart | wmail/maildir/maildirquota.c:801-855 | Admits a message if and only if the bytes and the messages of a recount, each with the message added, are at most their limits. |
| QuotaLedger.Maildir.AddEnd | wmail/maildir/maildirquota.c:857-862 | Appends the record; a file kept below 5120 bytes grows by one record at most. |
| QuotaLedger.Maildir.QuotaDeleted | wmail/maildir/maildirquota.c:864-876 | Records a deletion, always. |
| QuotaLedger.Maildir.Recalculate | wmail/maildir/maildirquota.c:878-888 | The file is rewritten to one record that is the recount. |
| QuotaLedger.Maildir.Add | wmail/maildir/maildirquota.c:801-862 | Asking, changing the folder and recording: refused if and only if the quota in force does not admit it; the quota named is in force afterwards in either case, the ledger adds up to a recount, and the file stays short. |
| QuotaLedger.Maildir.Deliver | wmail/maildir/deliverquota.c:126-142 | A whole delivery, which may name a quota, puts the message into the folder unless it would break the quota in force; ledger equal to a recount, file below 5120 bytes plus one record. |
| QuotaLedger.Maildir.Rename | wmail/maildir/maildirquota.c:890-918 | Marking a message as deleted, or no longer so, keeps the ledger true and the file short; only undeleting can be refused. |
| QuotaLedger.Maildir.PerformOne | wmail/maildir/maildirquota.c:801-918 | Every operation takes maildir and quota to the state it is specified to, with a true ledger, and keeps the file short if the totals are in range before and after. |
| QuotaLedger.Maildir.Perform | wmail/maildir/maildirquota.c:801-918 | Every sequential run of deliveries, flag changes and recalculations, of any length, refines the specified run: ledger equal to a recount at its end, recorded totals within the quota exactly when the specified run ends so, and a file below 5120 bytes plus one record if the totals fit in 64 bits throughout. |
| QuotaLedger.NextWithin | wmail/maildir/maildirquota.c:801-855 | A counted delivery ends within the quota in force if and only if the maildir kept to that quota when it began; from within the quota nothing else leads out of it. |
| QuotaLedger.WithinThroughout | wmail/maildir/maildirquota.c:801-918 | A run is within its quotas from beginning to end if and only if it begins so and no counted delivery names a quota that the maildir already breaks. |
| QuotaLedger.RisingWithin | wmail/maildir/maildirquota.c:819-842 | A run whose deliveries never name a lower quota than before keeps to its quotas. |
| QuotaLedger.LowerQuotaBreaks | wmail/maildir/maildirquota.c:819-842 | A refused delivery that names a lower quota leaves a maildir over its quota: an input. |
| DotLock.GetPidIdIs | wmail/liblock/mail.c:105-115 | From an id of a process of the same host the process number is read, from any other 0. |
| DotLock.IdInjective | wmail/liblock/mail.c:58-65 | Different processes write different ids. |
| DotLock.TwoLinks | wmail/liblock/mail.c:288-289 | After the link, the temporary file has exactly the two links that the check asks for. |
| DotLock.SteadySame | wmail/liblock/mail.c:280-288 | A visible lock file is not changed by a write, not even by its maker's: its whole id is there already. |
| DotLock.NotStale | wmail/liblock/mail.c:308-343 | A process that reads a lock file goes on to remove it if and only if its owner has died, or the file is of another host or cannot be read and is older than the timeout. |
| DotLock.StepKeeps | wmail/liblock/mail.c:267-346 | Every system call of every process keeps the invariant. |
| DotLock.MutualExclusion | wmail/liblock/mail.c:376-390 | Under the invariant at most one process holds the lock. |
| DotLock.RunKeeps | wmail/liblock/mail.c:267-486 | Every interleaving of the stated kind keeps the invariant. |
| DotLock.Safety | wmail/liblock/mail.c:267-486 | In every state of every such run: one holder at most, its whole id in the lock file, and what ll_mail_free removes is its own. |
| DotLock.SafeExactly | wmail/liblock/mail.c:267-486 | The condition is exact: a run is safe in every state if and only if every step of it keeps to the condition. |
| DotLock.TwoOwners | wmail/liblock/mail.c:308-346 | Whenever a reading process breaks the condition, seven more of its own calls give it the lock, whoever else holds it. |
| DotLock.LockLost | wmail/liblock/mail.c:322-338 | A run of twenty calls from the beginning, in which no process dies, all may be of one host and a single read fails, after which two processes hold the lock. |
| DotLock.Available | wmail/liblock/mail.c:288-298 | A free lock is obtained by a process whose calls succeed, and given back by ll_mail_free. |
| DotLock.HowHeld | wmail/liblock/mail.c:267-306 | A process holds the lock only after its own link and a check that saw two links, and is blocked only by a lock file that was there. |
| DotLock.OnlyOwnFreed | wmail/liblock/mail.c:464-480 | In any state, ll_mail_free removes the lock file only if it has read its own id there. |
| MimeHeader.StripTrlSpc | wmail/gpglib/mimegpgheader.c:140-148 | The loop cuts the string after its last character that is not blank. |
| MimeHeader.ScanPass | wmail/gpglib/mimegpgheader.c:237-279 | Both passes see the same value; the first counts and the second writes exactly that many bytes, the NUL included. |
| MimeHeader.ReadValue | wmail/gpglib/mimegpgheader.c:235-287 | Two passes, stripping, and no value for an empty one. |
| MimeHeader.Header.ReadParameter | wmail/gpglib/mimegpgheader.c:194-287 | One parameter is appended to the list, and the text goes on behind its value. |
| MimeHeader.ParseMimeHeader | wmail/gpglib/mimegpgheader.c:150-294 | The parser ends on every text and builds what the grammar says. |
| MimeHeader.Header.GetAttr | wmail/gpglib/mimegpgheader.c:296-306 | The value of the first parameter of that name. |
| MimeHeader.Header.SetAttr | wmail/gpglib/mimegpgheader.c:308-360 | The first parameter of that name is overwritten, or a new one appended. |
| MimeHeader.GetSet | wmail/gpglib/mimegpgheader.c:296-360 | What is set is found, under the name in any capitals; every other name gives what it gave before. |
| MimeHeader.PrintMimeHeader | wmail/gpglib/mimegpgheader.c:362-394 | The loops print the header, quoting and escaping values that need it. |
| MimeHeader.PrintedAs | wmail/gpglib/mimegpgheader.c:362-394 | Which values are printed bare, and that of the others only quotation marks and backslashes get a backslash. |
| MimeHeader.BlankBefore | wmail/gpglib/mimegpgheader.c:150-235 | Blanks before a header, before a parameter and behind an equals sign make no difference. |
| MimeHeader.ScanPrinted | wmail/gpglib/mimegpgheader.c:376-392 | A printed value, quoted or not, is scanned back whole. |
| MimeHeader.ParsePrint | wmail/gpglib/mimegpgheader.c:150-394 | Parsing a printed header gives back its names and, of each value, all but blanks at its end. |
| MimeHeader.RoundTrip | wmail/gpglib/mimegpgheader.c:150-394 | The header comes back whole if and only if each value is absent or non-empty without a trailing blank. |
| MimeHeader.SetPrintGet | wmail/gpglib/mimegpgheader.c:296-394 | Set, print, parse and get together: the reader gets what was set. |
| FilterRules.Validate | wmail/maildir/maildirfilter.c:61-318 | Every check with its error code, in the order of the source, and what is stored of an accepted rule. |
| FilterRules.CheckPattern | wmail/maildir/maildirfilter.c:158-237 | The scan of a pattern accepts what the grammar of parentheses, sets and backslashes accepts. |
| FilterRules.CheckSet | wmail/maildir/maildirfilter.c:195-226 | The scan of a set finds its end, or refuses. |
| FilterRules.CheckFolder | wmail/maildir/maildirfilter.c:253-290 | The destination: an address, a text, an autoresponder or a mailbox name. |
| FilterRules.PatternQuotes | wmail/maildir/maildirfilter.c:166-237 | In an accepted pattern every quotation mark is behind a backslash. |
| FilterRules.SizeDigits | wmail/maildir/maildirfilter.c:173-177 | An accepted size is all digits. |
| FilterRules.SetNeedsBracket | wmail/maildir/maildirfilter.c:199-223 | A set without a closing bracket after its first member is refused. |
| FilterRules.RangeAtEnd | wmail/maildir/maildirfilter.c:199-223 | Behind a range the closing bracket is taken for a member, so a set that ends in a range is refused unless another bracket follows. |
| FilterRules.RangeRefused | wmail/maildir/maildirfilter.c:199-223 | So a rule whose pattern starts with a set like [a-z], and has no closing bracket later, is refused. |
| FilterRules.TooLongStored | wmail/maildir/maildirfilter.c:240-314 | An accepted folder name is stored with more than 200 characters if and only if it has 200 and no dot, or other mark, before it. |
| FilterRules.UpdateStores | wmail/maildir/maildirfilter.c:294-317 | Every accepted rule is of the stored form. |
| FilterRules.StoredAgain | wmail/maildir/maildirfilter.c:61-318 | A stored rule is accepted again unchanged, unless the dot has made the name of its folder longer than 200. |
| FilterSuite.ToMailboxes | wmail/maildir/testsuite:17-38 | The rules of the test suite that go to a mailbox are accepted, with a dot before it. |
| FilterSuite.OtherKinds | wmail/maildir/testsuite:20-31 | So are those on recipients, content types and a pattern in parentheses. |
| FilterSuite.RefusedValues | wmail/maildir/testsuite:23-30 | The patterns that the test suite expects to be refused, with their code. |
| FilterSuite.RefusedHeaders | wmail/maildir/testsuite:32-40 | The headers that it expects to be refused. |
| FilterSuite.Sizes | wmail/maildir/testsuite:41-42 | A size of digits is accepted, and one with a letter refused. |
| FilterSuite.GoodAddresses | wmail/maildir/testsuite:35-39 | The addresses to forward to that are accepted. |
| FilterSuite.BadAddresses | wmail/maildir/testsuite:36-37 | The addresses that are refused. |
| FilterSuite.NamesAre | wmail/maildir/maildirfilter.c:80-88 | The names that are accepted, by their characters. |
| FilterSuite.HeadersAre | wmail/maildir/maildirfilter.c:108-138 | The headers that are accepted, by their characters. |
| FilterSuite.SendersAre | wmail/maildir/maildirfilter.c:241-249 | The senders that are accepted, by their characters. |
| FilterSuite.AddressCharacters | wmail/maildir/maildirfilter.c:259-269 | The characters that an address must not have. |
| FilterSuite.PatternCharacters | wmail/maildir/maildirfilter.c:168-171 | The characters that a pattern must not have but behind a backslash or in a set. |
| FilterFile.LiterallyMeans | wmail/maildir/maildirfilter.c:370-386 | The pattern printed for a plain string matches that string. |
| FilterFile.BlankKept | wmail/maildir/maildirfilter.c:729-765 | Every blank before the name of an autoresponder becomes part of the name. |
| FilterFile.LinesOfUnlines | wmail/maildir/maildirfilter.c:611-616 | fgets gives back the lines of a file if each fits its buffer. |
| FilterReload.KindOfName | wmail/maildir/maildirfilter.c:630-644 | Each type name in the file is read as its type. |
| FilterReload.ScriptQuiet | wmail/maildir/maildirfilter.c:434-555 | No line of the script of a rule looks like one of the comments that hold the rules. |
| FilterReload.LoadRule | wmail/maildir/maildirfilter.c:410-432 | The comments of one rule, read back, append that rule, or fail on its folder. |
| FilterReload.LoadSaved | wmail/maildir/maildirfilter.c:388-715 | What loading a saved file gives, for every list of stored rules whose lines fit. |
| FilterReload.RoundTrip | wmail/maildir/maildirfilter.c:388-715 | loadrules after saverules gives back the list if and only if every stored folder name has at most 200 characters and every sender fewer than 512. |
| FilterLines.WhenLinesFit | wmail/maildir/maildirfilter.c:397-563 | Every line of the file fits the buffer, for strings without newlines and a buffer of a stated size. |
| FilterLines.SaveLoad | wmail/maildir/maildirfilter.c:388-715 | The round trip, from what a caller can see: the strings, their lengths, and the buffer. |
| FilterLines.LongFolder | wmail/maildir/maildirfilter.c:307-310 | Such a rule is accepted and saved, and its file cannot be loaded: an input. |
| FilterLines.LongSender | wmail/maildir/maildirfilter.c:654-704 | A sender of 512 characters is accepted and saved and comes back with 511: an input. |
| FilterList.RuleDel | wmail/maildir/maildirfilter.c:320-326 | The node is unlinked, its rule is gone from the rules and no other; a valid list stays valid. |
| FilterList.RuleUp | wmail/maildir/maildirfilter.c:336-351 | The rule changes places with the one before it, in the nodes and in the rules; at the front nothing happens; a valid list stays valid. |
| FilterList.RuleDown | wmail/maildir/maildirfilter.c:353-368 | The rule changes places with the one behind it, in the nodes and in the rules; at the end nothing happens; a valid list stays valid. |
| FilterList.SwapUndone | wmail/maildir/maildirfilter.c:336-368 | Up and down undo each other, and no rule is lost or doubled. |
| FilterList.Rewrite | wmail/maildir/maildirfilter.c:61-318 | A refused update leaves the rule as it was, an accepted one takes its place among the rules; a valid list stays valid. |
| FilterList.AppendRule | wmail/maildir/maildirfilter.c:29-59 | An accepted rule is appended; a refused one leaves the list as it was, although it was linked before it was checked. |
| FilterList.SaveRules | wmail/maildir/maildirfilter.c:388-563 | The printing loop writes the file of the list. |
| FilterList.LoadRules | wmail/maildir/maildirfilter.c:572-715 | The reading loop appends the rules of the file, and keeps the list well formed and its rules acceptable, whatever the file. |
| Links.List.Append | wmail/maildir/maildirfilter.c:46-50 | A node is linked behind the others; the list stays doubly linked, from both ends. |
| Links.List.Unlink | wmail/pcp/pcpdtimer.c:69-77 | A node is taken out of the chain. |
| Links.List.InsertBefore | wmail/pcp/pcpdtimer.c:54-60 | A node is put before another one. |
| Links.List.InsertAfter | wmail/maildir/maildirfilter.c:363-367 | A node is put behind another one. |
| CgiRequest.EncodePass | wmail/cgi/cgi.c:227-250 | Both passes count the same; the second writes exactly the code. |
| CgiRequest.UrlEncode | wmail/cgi/cgi.c:219-252 | The result fills a buffer of exactly the counted size. |
| CgiRequest.UrlDecode | wmail/cgi/cgi.c:333-369 | Decoding in place: the decoded string stands where the code stood and nothing outside it changes. |
| CgiRequest.ReadPercent | wmail/cgi/cgi.c:356-359 | Up to two digits, the letters in capitals only. |
| Cgi.SmallLetter | wmail/cgi/cgi.c:356-359 | Before a small letter a percent sign is lost and the letter stays. |
| CgiRequest.DecodePair | wmail/cgi/cgi.c:205-215 | A pair is cut at its first equals sign and both parts decoded, the value first, without touching each other. |
| CgiRequest.Segment | wmail/cgi/cgi.c:199-215 | One turn of the loop, in the buffer: earlier pairs and the rest of the query are not disturbed. |
| CgiRequest.Request.constructor | wmail/cgi/cgi.c:196-217 | At the end every name and value in the list is found decoded in the buffer, the last pair first. |
| CgiRequest.Request.Get | wmail/cgi/cgi.c:282-290 | The value nearest the front of the list. |
| CgiRequest.Request.Measure | wmail/cgi/cgi.c:298-300 | The size of the buffer for several values. |
| CgiRequest.Request.Multiple | wmail/cgi/cgi.c:292-322 | The values from the end of the list to its front, joined within the measured buffer. |
| Cgi.DecodeEncode | wmail/cgi/cgi.c:219-369 | Decoding a code gives the string without its carriage returns and with blanks for hard blanks. |
| Cgi.CodeOf | wmail/cgi/cgi.c:219-257 | Which characters are written as a code, and with which two digits. |
| Cgi.CodeMeans | wmail/cgi/cgi.c:347-369 | A plus sign is read as a blank, and a code as its character. |
| Cgi.PairParted | wmail/cgi/cgi.c:203-215 | The first equals sign parts a name from its value. |
| Cgi.CleanSame | wmail/cgi/cgi.c:361-366 | That is the string itself if and only if it has neither. |
| Cgi.QueryBack | wmail/cgi/cgi.c:196-369 | Every list of pairs, encoded and joined, comes back in reverse order, and whole if and only if no name or value holds a carriage return or a hard blank. |
| Cgi.WrittenFits | wmail/cgi/cgi.c:298-320 | What cgi_multiple writes, with its NUL, fits the buffer. |
| Cgi.WrittenIsJoin | wmail/cgi/cgi.c:315-320 | It is the values joined by the separator if and only if the separator is empty, there is at most one value, or the first is not empty. |
| Cgi.LookupIsLast | wmail/cgi/cgi.c:282-290 | What is looked up is the value submitted last. |
| Cgi.FormValues | wmail/cgi/cgi.c:196-369 | From form to program: the values of a name in the order of their submission, joined and looked up. |
| GmTime.NextNumber | wmail/pcp/pcpgmtime.c:20-25 | The number of the next day is one more, over month ends, year ends and leap days. |
| GmTime.NumberOfDate | wmail/pcp/pcpgmtime.c:99-104 | The day that the calendar reaches after n steps has the number n, before and after 1970. |
| GmTime.CompareNumbers | wmail/pcp/pcpgmtime.c:28-44 | tmcmp orders dates as their day numbers. |
| GmTime.DateOfNumber | wmail/pcp/pcpgmtime.c:20-44 | A date is the calendar day of its number. |
| GmTime.FindDay | wmail/pcp/pcpgmtime.c:99-125 | Both loops end, at the very date, with the time of day they started with, from wherever mktime landed. |
| GmTime.PcpGmTime | wmail/pcp/pcpgmtime.c:46-130 | If all checks pass the result is 86400 times the day number plus the time of day, whatever the zone; else 0. |
| GmTime.Seconds | wmail/pcp/pcpgmtime.c:20-130 | The result in closed form, without the table of the months, for every date and time of the years 1970 to 3000. |
| GmTime.NoSeconds | wmail/pcp/pcpgmtime.c:53-56 | For everything that is not such a date and time the result is 0. |
| GmTime.GmTimeInverse | wmail/pcp/pcpgmtime.c:46-130 | The result is the time whose calendar date and time of day were asked for. |
| GmTime.ScanPadded | wmail/pcp/pcpgmtime.c:136-146 | A number printed with leading zeros in its width is scanned back from what follows it. |
| GmTime.PcpGmTimeS | wmail/pcp/pcpgmtime.c:132-140 | All six conversions must succeed. |
| GmTime.StrBack | wmail/pcp/pcpgmtime.c:132-153 | A time printed and read again comes back if and only if its year is from 1970 to 3000, for every time. |
| GmTime.StrIs | wmail/pcp/pcpgmtime.c:142-153 | The string is the year in four digits, and month, day, hour, minute and second in two each. |
| AuthToken.VerifyExact | wmail/pcp/pcpdauthtoken.c:255-308 | A token is good if and only if it was made for the user at a time at most four timeouts ago and at most a minute ahead, with the current or the previous secret. |
| AuthToken.BoundToUser | wmail/pcp/pcpdauthtoken.c:203-252 | Shown for another user, a token is good if and only if one of the two secrets gives that user and the time of the token the very hash in it. |
| AuthToken.NoneSoon | wmail/pcp/pcpdauthtoken.c:173-188 | After a replacement none follows for two timeouts. |
| AuthToken.SecretStays | wmail/pcp/pcpdauthtoken.c:173-188 | In less than two timeouts a secret becomes at most the previous one. |
| AuthToken.TokenLives | wmail/pcp/pcpdauthtoken.c:173-308 | A token is good at every time less than two timeouts after it was made, through any checks, with a clock that does not go back. |
| AuthToken.NotLonger | wmail/pcp/pcpdauthtoken.c:173-308 | And no longer in general: a run in which two timeouts later neither secret is left. |
| AuthToken.SavedGood | wmail/pcp/pcpdauthtoken.c:107-169 | Whatever is saved, at an exchange of secrets or at a start without a usable file, is good for two timeouts from then. |
| AuthToken.Restart | wmail/pcp/pcpdauthtoken.c:88-169 | A daemon that starts again goes on with the saved secrets if they have not expired (and the clock is not a minute slow), and with two new ones if they have. |
| AuthToken.StrHTime | wmail/numlib/strhtimet.c:16-29 | The time in 16 hex digits. |
| AuthToken.MkToken | wmail/pcp/pcpdauthtoken.c:201-245 | The loop writes time, dash and hash. |
| AuthToken.ReadTime | wmail/pcp/pcpdauthtoken.c:262-272 | The loop reads the digits at the start of a token. |
| AuthToken.Tokens.AuthtokenCheck | wmail/pcp/pcpdauthtoken.c:173-188 | One call: the secrets move on exactly when they have expired. |
| AuthToken.Tokens.AuthtokenVerify | wmail/pcp/pcpdauthtoken.c:255-308 | The program decides as specified. |
| AuthToken.Tokens.AuthtokenCreate | wmail/pcp/pcpdauthtoken.c:196-199 | The token is made with the current secret. |
| AuthToken.Tokens.CheckAll | wmail/pcp/pcpdauthtoken.c:152-169 | Any sequence of checks changes the daemon as the run of those checks says. |
| AuthToken.Tokens.ShownAgain | wmail/pcp/pcpdauthtoken.c:152-308 | A token made, any checks in less than two timeouts, and the token verified: it is good. |
| TimerQueue.PcpdTimerInstall | wmail/pcp/pcpdtimer.c:17-62 | The timer is taken out if it was in, and put before the first later alarm; the list stays well formed if and only if the alarm time is not 0. |
| TimerQueue.PcpdTimerTriggered | wmail/pcp/pcpdtimer.c:64-80 | The timer is taken out; nothing happens if it was not in. |
| TimerQueue.QueueIsLogSorted | wmail/pcp/pcpdtimer.c:17-80 | After any events the queue is in order of alarms, and for each time holds the timers in the order of their installation. |
| TimerQueue.QueueIsArmed | wmail/pcp/pcpdtimer.c:17-80 | Exactly the timers are queued whose last event was their installation, once each, with that alarm. |
| TimerQueue.RunAll | wmail/pcp/pcpdtimer.c:17-80 | Any sequence of installations and triggers leaves a well-formed doubly linked list that holds exactly that queue, with every timer known. |
| EventTimes.NeighboursEnough | wmail/pcp/pcpaddcommon.c:54-69 | In the order of the comparison, checking neighbours is checking all pairs. |
| EventTimes.EndsMatter | wmail/pcp/pcpaddcommon.c:24-27 | Without comparing the ends it would not be: a counterexample. |
| EventTimes.QSort | wmail/pcp/pcpaddcommon.c:50-52 | A sorted permutation. |
| EventTimes.AcceptableShown | wmail/pcp/pcpaddcommon.c:47-52 | Whether the times overlap does not depend on their order. |
| EventTimes.SortTimes | wmail/pcp/pcpaddcommon.c:30-72 | Succeeds if and only if there are times, each starts before it ends or with it, and no two overlap; then it shows a permutation of them in order. |

## Left out

- Everything under `mailadm/` and `NoSPAM/`, and the LDAP, SQL, PAM, vpopmail and gpg drivers: user interface and wrappers around libraries that are not part of this model.
- SHA-1 and the table of hash functions: HMAC and CRAM are modelled for MD5; in the authentication tokens the keyed hash is a parameter.
- Allocation failures, failing reads and writes of ordinary files, clocks and random numbers: the first are taken not to happen, the others are parameters. In the lock protocol every system call may fail.
- Integer widths where they do not decide a result: `off_t`, `time_t`, `int` counters and the numbers read by atoi, strtol and sscanf are unbounded. The MD5 words, the MD5 bit counts, the lengths passed to MD5 and the days of an autoresponder have their C widths; UINT4 is taken as 32 bits, as License/md5/global.h declares it to be.
- Characters are those of the C locale; `char` strings are held without their NUL.
- Md5Crypt.CryptRedhat: says nothing of the result for passwords for which a length field is wrong.
- Md5Crypt.FirstPart: likewise.
- Md5Crypt.Round: likewise.
- Hmac.HashKey: says nothing of the result for keys of 2^32 bytes and more, whose length the source cuts to 32 bits.
- Hmac.ResumeHash: likewise for texts of 2^32 bytes and more.
- Hmac.HashText: likewise.
- Hmac.Authenticate: likewise for keys and texts.
- Decimal.StrOffT: in an off_t the negation of the lowest value overflows; here it does not.
- QuotaFile.ScanRecordLine: a count beyond an int or a size beyond a long, which sscanf cannot hold, is read here.
- QuotaFile.ReadWritten: likewise.
- RsaMd5.Context.Update: requires that the buffered bytes and the chunk together stay below 2^32, because the index arithmetic of the source wraps around there (`RsaMd5.WrapsExactly`) and it then reads behind the chunk.
- RsaMd5.DigestOfChunks: likewise for every chunk.
- Cram.Session: a challenge holds no NUL, since it is a C string, and is shorter than 2^29 bytes, so that its code has a length that fits an int.
- `rfc2045_encode` is not part of this model; the encoder is that of section 6.8 of RFC 2045 without line breaks.
- QuotaLedger.Maildir.AddStart: a recount that another process disturbs, and its repetition, is not modelled; nor are the redirection of a folder to its parent maildir, `maildir_purge`, the quota warning message and the correction of wrong sizes by the delivery program.
- QuotaLedger.Maildir.Perform: a named quota, and the totals where the length of the file is concerned, are taken to fit in 64 bits; a change of flags keeps the size that a counted message has.
- MaildirNames.Lookup: names are base names, without a directory; the separator before the flags is a colon, not the exclamation mark of some builds.
- DotLock.Safety: modelled on values, as a state machine over the system calls, not as an object; no process dies, and no lock that is of another host or cannot be read outlives its timeout, because the removal of a stale lock is a check and an unlink that are not one step. A link that is made although the call reports a failure, as can happen over NFS, is not modelled, and the temporary name is taken to be one for each process. The flock on the mailbox and the c-client lock file are not modelled.
- MimeHeader: reading a header from a file, line by line, and `find_header` are not modelled.
- FilterFile.LiterallyMeans: matching is undoing the backslashes, not the pattern language of the delivery agent.
- FilterFile: the meaning of the script to the delivery agent is not modelled, only its text; flags other than the four known ones, which saving drops, do not exist here; `maildir_filter_autoresp_info_asstr` and the copying of filter files between directories are not modelled.
- FilterList.PrintRule: the lines of one rule are computed by the functions of FilterFile, not printed piece by piece; the loops over rules and lines are those of the source.
- FilterLines.SaveLoad: lines that do not fit the buffer are read in pieces, as LoadRules models, but nothing is claimed about the rules they give; the room asked for here is a simple bound, and FilterReload.RoundTrip asks only that every line fits.
- CgiRequest.Request: reading the body of a POST and multipart forms are not modelled, nor is `cgi_put`; the list is a sequence, without its links.
- AuthToken.Tokens: the writing of the file of secrets and its failure are not modelled; what a restart finds is a parameter.
- TimerQueue.RunAll: no alarm time of the run is 0, the value that marks a timer as not installed. The handlers and the main loop that calls them are not modelled.
- EventTimes.QSort: qsort is replaced by an insertion sort with the same contract, which is all that the check after it relies on.
