# OpenPGP keyring layer, DN string parser, debug helpers and hash dispatch of GnuTLS, in Dafny

This project models four pieces of an early GnuTLS:

- **The OpenPGP glue layer** (`lib/gnutls_openpgp.c`):
  - the keyring container: records of one type octet, a 4-octet big-endian size and the payload. The model covers how records are written, how the first one is read back, and which key-database handle it opens;
  - the packet-chain selectors;
  - the conversion of a public-key packet into a certificate: the algorithm policy, the key-usage bits, and the MPI parameter loop;
  - the key lookup, the trust-status mapping of key verification, the fingerprint length rule, and the e-mail slice of a user id;
  - appending keyring records, and the request text and response framing of the HKP key fetch.
- **The RFC 4514 distinguished-name string parser** (`lib/x509/x509_dn.c`): tokenising `name=value` elements, trimming, unescaping, resolving OIDs, and the element loop with its error position. The four public entry points are modelled as setter instantiations.
- **The debug helpers** (`lib/debug.c`): `bin2hex` and the alert and content-type name tables of section 7.2 and section 6.2.1 of RFC 2246.
- **The hash interface helpers** (`lib/gnutls_hash_int.h`): the `IS_SHA` and block-length classifiers, and the guards the inline MAC and hash helpers put around their backend callbacks.

Foreign code is a parameter of the model:

- OpenCDK packet parsing, key search, signature checking and fingerprints, and the libgcrypt MPI scan, are the `Codec` oracle of `OpenPgp`.
- The OID tables and the hex decoder of the DN parser are the `DnEnv` record.
- The ASN.1 setters, and the hash and MAC backends, are objects that log every call made to them. What such a call returns is a function of the calls made before it.
- The resolver, socket and armor decoder of the key fetch are the `Network` record.

Module layout, one file each:

| module | file | what it holds |
|---|---|---|
| `Common` | `common.dfy` | octets, the 2^32 and 2^64 limits, `Option`, `Result`, `Outcome` and the library error codes |
| `Keyring` | `keyring.dfy` | record framing, the blob reader (checked and as written), handle dispatch, the growable keyring |
| `Packets` | `packets.dfy` | packets, the chain walk up to the first id-0 packet, the n-th and last packet of a kind |
| `OpenPgp` | `openpgp.dfy` | certificate conversion, key lookup, verification, fingerprint, name and e-mail |
| `Hkp` | `hkp.dfy` | the keyserver request and the response framing count |
| `X509Dn` | `x509_dn.dfy` | the DN string parser, unescaping, OID resolution, the element loop and its round trip |
| `Debug` | `debug.dfy` | `bin2hex` and its inverse, the alert and packet name tables |
| `HashInt` | `hash_int.dfy` | digest classification, the MAC and digest handles |

Where the code does things step by step, the model is imperative:

- the blob copy;
- the MPI loop into the certificate's fixed parameter array;
- the linked-list walks, written as loops over a sequence;
- the DN scanning loops and the two-index unescape;
- the `bin2hex` buffer fill;
- the handles whose call log grows.

Each such method is proved against a function, and the properties are lemmas about that function.

## Model

| member | source | states |
|---|---|---|
| `Keyring.BufferToU32` | lib/gnutls_openpgp.c:57-66 | a NULL buffer decodes to 0; any four octets decode to a value below 2^32 |
| `Keyring.U32RoundTrip` | lib/gnutls_openpgp.c:57-66 | decoding the four big-endian octets written for any n below 2^32 gives n |
| `Keyring.BytesRoundTrip` | lib/gnutls_openpgp.c:57-66 | re-encoding the decoded value gives back exactly the first four octets of the buffer |
| `Keyring.U32ToBytes` | lib/gnutls_openpgp.c:168-171 | the size field is always four octets |
| `Keyring.ConvDataToKeyring` | lib/gnutls_openpgp.c:158-176 | NULL data gives NULL and nothing else does; otherwise the buffer is exactly the record octets |
| `Keyring.KeyringRecordLayout` | lib/gnutls_openpgp.c:166-173 | a record is 1 + 4 + size octets: the type octet, a size field that decodes to the payload length, then the payload unchanged |
| `Keyring.KeyringRecord` | lib/gnutls_openpgp.c:166-173 | the octets of one record; `KeyringRecordLayout` and `RecordRoundTrip` state its layout and that it reads back |
| `Keyring.KeyringBlobAt` | lib/gnutls_openpgp.c:123-149 | the checked read of the record at a position; `ReadBlobIsValid`, `ReadBlobRejects` and `RecordRoundTrip` state what it returns and when it fails |
| `Keyring.ReadKeyringBlobAsWritten` | lib/gnutls_openpgp.c:123-149 | the read as the C code writes it, with the out-of-bounds accesses it makes; `AsWrittenReadsPastEnd` and `CheckedReadAgreesInBounds` compare it with the checked read |
| `Keyring.KeyringToKeydb` | lib/gnutls_openpgp.c:97-118 | the handle a blob opens: a file for kind 0, an in-memory buffer for kind 1; `AddedFileOpensAsFile`, `AddedDataOpensAsMemory` and `ReadBlobHasHandle` state which |
| `Keyring.ReadKeyringBlob` | lib/gnutls_openpgp.c:123-149 | the reader, which copies the payload into a fresh array and appends a NUL, returns exactly the checked record at the position |
| `Keyring.ReadBlobIsValid` | lib/gnutls_openpgp.c:130-148 | every blob read has kind 0 or 1 and a size from 1 to 2^32 - 1; its data is the payload taken from just after the header, followed by one NUL |
| `Keyring.ReadBlobRejects` | lib/gnutls_openpgp.c:127-143 | a read fails if and only if one of four things holds: the header runs past the buffer, the type is not 0 or 1, the size is 0, or the payload runs past the buffer |
| `Keyring.RecordRoundTrip` | lib/gnutls_openpgp.c:123-176 | a record of kind 0 or 1 with a non-empty payload reads back as the same kind, size and payload plus NUL, at its offset inside any surrounding bytes |
| `Keyring.EmptyRecordRejected` | lib/gnutls_openpgp.c:139-143 | a record written with an empty payload never reads back |
| `Keyring.BadKindRejected` | lib/gnutls_openpgp.c:131-136 | a record whose type octet is neither 0 nor 1 never reads back |
| `Keyring.AsWrittenReadsPastEnd` | lib/gnutls_openpgp.c:127-145 | the unchecked reader reads past the end on three inputs: an empty keyring, a truncated header, and a size larger than the remaining payload. The checked read rejects all three |
| `Keyring.CheckedReadAgreesInBounds` | lib/gnutls_openpgp.c:123-149 | wherever the unchecked reader stays inside the buffer, the checked read gives the same blob or the same rejection |
| `Keyring.CString` | lib/gnutls_openpgp.c:104-105 | the string taken from a blob is the longest NUL-free prefix, ended by a NUL or the end of the data |
| `Keyring.CStringOfTerminated` | lib/gnutls_openpgp.c:104-105 | a NUL-free name followed by a NUL is taken back whole |
| `Keyring.AddedFileOpensAsFile` | lib/gnutls_openpgp.c:98-118 | a keyring whose first record was added as a file name opens that file, whatever follows |
| `Keyring.AddedDataOpensAsMemory` | lib/gnutls_openpgp.c:98-118 | a keyring whose first record was added as data opens an in-memory buffer of exactly that data |
| `Keyring.ReadBlobHasHandle` | lib/gnutls_openpgp.c:98-118 | every blob the reader returns has a handle, so the error branch of the dispatch is never taken after a successful read |
| `Keyring.AddKeyringFile` | lib/gnutls_openpgp.c:1043-1063 | a NULL keyring or name is INVALID_PARAMETERS and leaves the keyring as it was; otherwise the keyring grows by exactly the kind-0 record of the name without its NUL |
| `Keyring.AddKeyringMem` | lib/gnutls_openpgp.c:1076-1097 | a NULL keyring or data, or a zero length, is INVALID_PARAMETERS and leaves the keyring as it was; otherwise the keyring grows by exactly the kind-1 record of the data |
| `Packets.NumPublicMpis` | lib/gnutls_openpgp.c:339 | an algorithm has at most four public MPIs, well within the six parameter slots, and has any at all exactly when it is RSA, DSA or ElGamal |
| `Packets.NthOfKind` | lib/gnutls_openpgp.c:260-309 | the selector specification: the idx-th packet of the kind among the packets before the first id-0 packet; `NthOfKindIsIndex`, `NthOfKindHasId` and `NthOfKindStopsAtZero` state what it selects |
| `Packets.NthPacket` | lib/gnutls_openpgp.c:277-292 | the counting walk returns the packet the selector specification names |
| `Packets.NthOfKindIsIndex` | lib/gnutls_openpgp.c:260-309 | the selector returns the idx-th packet of the kind among the packets before the first id-0 packet, or NULL when there are fewer than idx + 1 |
| `Packets.NthOfKindHasId` | lib/gnutls_openpgp.c:260-309 | a selected packet has the requested id, which is non-zero, and is in the chain |
| `Packets.NthOfKindStopsAtZero` | lib/gnutls_openpgp.c:266 | packets after an id-0 packet never influence the selection |
| `Packets.LiveIsPrefix` | lib/gnutls_openpgp.c:266 | the walked part of a chain is its longest prefix of non-zero ids |
| `Packets.LastOfKind` | lib/gnutls_openpgp.c:595-603 | a packet found has the requested id and is in the chain |
| `Packets.LastOfKindIsLast` | lib/gnutls_openpgp.c:595-603 | the packet found is the last packet of the kind before the first id-0 packet |
| `Packets.OfKindHasId` | lib/gnutls_openpgp.c:268-271 | every packet counted has the requested id |
| `OpenPgp.AlgorithmOf` | lib/gnutls_openpgp.c:324-325 | DSA keys are tagged DSA and every other accepted key RSA; `SetKeyFields` writes it into the certificate |
| `OpenPgp.KeyUsageFor` | lib/gnutls_openpgp.c:331-337 | the usage bits per algorithm, or none for an algorithm without a case; `KeyUsageMatchesCapabilities` compares them with the sign and encrypt capabilities |
| `OpenPgp.KeyUsageMatchesCapabilities` | lib/gnutls_openpgp.c:331-337 | key usage is set exactly for RSA and DSA keys. DIGITAL_SIGNATURE is in it exactly when the key signs (DSA, RSA-S, RSA-ES), and ENCIPHER_ONLY exactly when it encrypts (RSA-E, RSA-ES) |
| `OpenPgp.ParamsFitCapacity` | lib/gnutls_openpgp.c:339-340 | the MPI count never exceeds the certificate's parameter array |
| `OpenPgp.ScanParams` | lib/gnutls_openpgp.c:340-349 | on success, one scanned MPI per raw MPI, in order. On failure, the index of the first MPI that fails, with every earlier one scanning |
| `OpenPgp.ReleaseMpiArray` | lib/gnutls_openpgp.c:44-55 | the first n slots are NULL afterwards and the rest are untouched |
| `OpenPgp.ScanInto` | lib/gnutls_openpgp.c:339-355 | the loop's result is the scan specification. On success the slots hold the scanned MPIs. On failure at index i, exactly the i slots filled are released and the rest are untouched |
| `OpenPgp.SetKeyFields` | lib/gnutls_openpgp.c:324-339 | algorithm tag, version, validity, type, fingerprint, usage and parameter count are set as the algorithm policy says; usage is untouched for a key with no listed usage |
| `OpenPgp.PkToCert` | lib/gnutls_openpgp.c:312-358 | a missing certificate or key is INVALID_PARAMETERS, and a certificate given without a key is left exactly as it was. ElGamal is UNWANTED_ALGORITHM with nothing written. Otherwise the header fields are set. A successful scan fills the slots and the two times and returns 0. A failed scan is MPI_SCAN_FAILED, with the scanned slots released and the times untouched |
| `OpenPgp.PassedConversionHoldsKey` | lib/gnutls_openpgp.c:312-358 | a certificate with the fields a successful conversion writes holds the key, by the holding predicate |
| `OpenPgp.AsWrittenReleaseMisses` | lib/gnutls_openpgp.c:353-355 | the C release count wraps to 2^64 - 1 when the first MPI fails, and leaves slot 1 unreleased when the third fails |
| `OpenPgp.BuildSearch` | lib/gnutls_openpgp.c:569-588 | the key search built from the attribute: the two big-endian 32-bit words of a 64-bit key id, the one word of a short key id (0 for a NULL pattern), or the first 20 fingerprint octets, and no search for the NONE attribute; `SearchRecoversPattern` states that the pattern is carried back |
| `OpenPgp.SearchRecoversPattern` | lib/gnutls_openpgp.c:570-588 | the search built for a 64-bit key id, a short key id or a fingerprint carries back the words or octets the pattern was written from, ignoring anything after them |
| `OpenPgp.GetKey` | lib/gnutls_openpgp.c:549-613 | a missing keyring or the NONE attribute is INVALID_PARAMETERS, and an unreadable first record is MEMORY_ERROR. A failed search is NO_CERTIFICATE_FOUND. A chain without a public key gives no certificate. Otherwise the result is a fresh certificate, which holds the last public key whenever that key converts |
| `OpenPgp.ConvertLastKey` | lib/gnutls_openpgp.c:595-603 | the conversion loop leaves a fresh certificate of the last public-key packet, which holds the key when it converts, or none when there is no such packet |
| `OpenPgp.VerifyKey` | lib/gnutls_openpgp.c:898-957 | key verification on a keyring, a certificate list and its length; `VerifyRejectsBadInput` and `VerifyMapsState` state its outcomes |
| `OpenPgp.MapStatus` | lib/gnutls_openpgp.c:934-951 | the status switch after the signature check; `MapStatusInjective` and `VerifyMapsState` state what it maps |
| `OpenPgp.VerifyRejectsBadInput` | lib/gnutls_openpgp.c:909-917 | a missing certificate list, a list length other than 1, or a missing keyring or one whose first record does not read back, is CORRUPTED |
| `OpenPgp.VerifyMapsState` | lib/gnutls_openpgp.c:925-951 | for a parsed certificate and a readable keyring: INVALID maps to CORRUPTED, REVOKED to REVOKED, EXPIRED to EXPIRED and VALID to TRUSTED. Any other state returns the check's code, with "no key" and "bad signature" turned into 0 |
| `OpenPgp.MapStatusInjective` | lib/gnutls_openpgp.c:934-951 | exactly the four listed states give a status, and they give four different ones |
| `OpenPgp.FingerprintLen` | lib/gnutls_openpgp.c:988-991 | the length reported is 16 or 20 |
| `OpenPgp.FingerprintLenByVersion` | lib/gnutls_openpgp.c:988-991 | the algorithm rule agrees with the version rule of section 11.2 of RFC 2440 on version 3 RSA and version 4 non-RSA keys, and disagrees on version 4 RSA keys |
| `OpenPgp.Fingerprint` | lib/gnutls_openpgp.c:970-997 | a missing key is UNKNOWN_ERROR with nothing written. Otherwise the length is first set to 0, and a key that does not parse is NO_CERTIFICATE_FOUND. Otherwise the result is 0, and the length and fingerprint are those of the last public key, or 0 and nothing when there is none |
| `OpenPgp.IndexOf` | lib/gnutls_openpgp.c:788-793 | the index found is the first occurrence of the character, or there is none |
| `OpenPgp.EmailOf` | lib/gnutls_openpgp.c:788-797 | the corrected e-mail: the text between the first '<' and the first '>' when '<' comes first, empty otherwise; `EmailRoundTrip` and `EmailNeedsBothBrackets` state what it extracts |
| `OpenPgp.EmailAsWritten` | lib/gnutls_openpgp.c:788-797 | the e-mail copy as the C code writes it, on the positions strchr finds; `EmailAsWrittenAgrees`, `EmailAsWrittenWraps` and `EmailAsWrittenOverruns` compare it with the corrected e-mail |
| `OpenPgp.CopyAsWritten` | lib/gnutls_openpgp.c:794-797 | the `memcpy` of `pos2 - pos1` characters in `size_t` arithmetic, or the overrun length when the copy leaves the user id |
| `OpenPgp.EmailRoundTrip` | lib/gnutls_openpgp.c:788-798 | for a user id "display<address>rest" with no bracket in display and no '>' in address, the e-mail is exactly the address |
| `OpenPgp.EmailNeedsBothBrackets` | lib/gnutls_openpgp.c:794-798 | without both brackets the e-mail stays empty |
| `OpenPgp.EmailAsWrittenAgrees` | lib/gnutls_openpgp.c:794-797 | with '<' before '>' the C copy is exactly the corrected e-mail |
| `OpenPgp.EmailAsWrittenWraps` | lib/gnutls_openpgp.c:794-797 | with '>' before '<' the C length wraps to 2^64 minus the bracket distance and overruns the user id, where the corrected e-mail is empty |
| `OpenPgp.EmailAsWrittenOverruns` | lib/gnutls_openpgp.c:794-797 | on "a>b<c" the C code asks to copy 2^64 - 2 characters |
| `OpenPgp.ExtractKeyName` | lib/gnutls_openpgp.c:760-804 | the name and e-mail extraction; `ExtractKeyNameIsFirstUid` states what it returns |
| `OpenPgp.ExtractKeyNameIsFirstUid` | lib/gnutls_openpgp.c:761-804 | the name extracted is the first user id of the walked chain, and the e-mail is empty or a slice of it. A key without a user id is UNKNOWN_ERROR |
| `Hkp.EffectivePort` | lib/gnutls_openpgp.c:1163-1164 | port 0 becomes 11371; any other port is kept |
| `Hkp.HexDigits` | lib/gnutls_openpgp.c:1184 | n characters, all upper-case hexadecimal digits |
| `Hkp.HexRoundTrip` | lib/gnutls_openpgp.c:1184 | reading back n digits gives the number modulo 16^n |
| `Hkp.Hex8RoundTrip` | lib/gnutls_openpgp.c:1184 | the eight digits of `%08X` give back any 32-bit key id |
| `Hkp.DecimalDigits` | lib/gnutls_openpgp.c:1185 | at least one character, all decimal digits |
| `Hkp.DecimalRoundTrip` | lib/gnutls_openpgp.c:1185 | reading back the decimal digits gives the number |
| `Hkp.Request` | lib/gnutls_openpgp.c:1183-1185 | the request text the `sprintf` writes; `RequestFitsAndCarriesKeyId`, `Hex8RoundTrip` and `DecimalRoundTrip` state its size and contents |
| `Hkp.RequestFitsAndCarriesKeyId` | lib/gnutls_openpgp.c:1183-1185 | the request and its NUL fit the strlen(host) + 100 octets allocated, and characters 32 to 39 spell the key id |
| `Hkp.CPrefix` | lib/gnutls_openpgp.c:1197-1202 | what strstr sees of a buffer is its longest NUL-free prefix |
| `Hkp.CPrefixWhole` | lib/gnutls_openpgp.c:1197-1202 | a chunk without NUL is seen whole |
| `Hkp.FramingChunks` | lib/gnutls_openpgp.c:1202-1203 | the count never exceeds the number of chunks |
| `Hkp.FramingChunksAppend` | lib/gnutls_openpgp.c:1195-1204 | the count over two runs of chunks is the sum of their counts |
| `Hkp.ReadResponse` | lib/gnutls_openpgp.c:1195-1204 | the loop accumulates the concatenation of the chunks and counts the chunks holding a marker |
| `Hkp.BothMarkersInOneChunk` | lib/gnutls_openpgp.c:1202-1203 | a chunk holding both markers counts once, not twice |
| `Hkp.SplitMarkerMissed` | lib/gnutls_openpgp.c:1202-1203 | a "<pre>" split across two reads is not counted |
| `Hkp.SplitMarkerInResponse` | lib/gnutls_openpgp.c:1202-1203 | yet the concatenated response of the same reads does contain "<pre>" |
| `Hkp.RecvKey` | lib/gnutls_openpgp.c:1147-1229 | a NULL host is INVALID_PARAMETERS, and a failed resolve, connect or write is -1. Otherwise the request is sent and the result is 0. A key is stored exactly when two chunks held a marker and de-armoring gives a non-empty key |
| `X509Dn.SkipSpacesFrom` | lib/x509/x509_dn.c:118-120 | the loop stops at the first non-space at or after the start |
| `X509Dn.ScanName` | lib/x509/x509_dn.c:122-127 | the loop stops where the name specification ends |
| `X509Dn.NameEndSpans` | lib/x509/x509_dn.c:124-125 | no character of a name is '=', NUL or a space |
| `X509Dn.ValueEnd` | lib/x509/x509_dn.c:145-149 | a value ends at a value terminator: NUL, a newline, or a comma not preceded by a backslash |
| `X509Dn.ValueEndSpans` | lib/x509/x509_dn.c:145-149 | no position before the end is a value terminator |
| `X509Dn.ScanValue` | lib/x509/x509_dn.c:144-157 | the scan and trim loops give the value's end and trimmed size |
| `X509Dn.TrimmedSize` | lib/x509/x509_dn.c:152-157 | the trimmed value is no longer than before, and ends in a non-space, in a backslash-escaped space, or is empty |
| `X509Dn.TrimmedSizeRemovesSpaces` | lib/x509/x509_dn.c:152-157 | every character the trim removes is a space that no backslash of the value escapes |
| `X509Dn.TrimmedSizeAsWritten` | lib/x509/x509_dn.c:153-157 | the trim with the C guard `val->size-2 > 0`; `TrimAsWrittenDropsEscapedSpace` and `TrimAgreesElsewhere` compare it with the corrected trim |
| `X509Dn.TrimAsWrittenDropsEscapedSpace` | lib/x509/x509_dn.c:153-156 | the C guard trims the escaped space of a two-character value, leaving a lone backslash, but keeps it in a longer one |
| `X509Dn.TrimAgreesElsewhere` | lib/x509/x509_dn.c:153-156 | on a value that does not start with a space, the C trim and the corrected trim agree unless the value starts with a backslash and a space |
| `X509Dn.ReadAttrAndValSpec` | lib/x509/x509_dn.c:111-165 | the read specification of one element; `ReadAttrAndValAdvances`, `ReadAttrAndValName`, `ReadAttrAndValValue` and `ReadAttrAndValSpan` state what a successful read gives |
| `X509Dn.ReadAttrAndVal` | lib/x509/x509_dn.c:111-165 | the tokeniser returns the read specification: a missing '=', an empty name or an empty value is PARSING_ERROR |
| `X509Dn.SpecAfterEquals` | lib/x509/x509_dn.c:133-160 | once the '=' is found, the result depends only on the name and value positions, and the value fits in the string |
| `X509Dn.ReadAttrAndValAdvances` | lib/x509/x509_dn.c:146-162 | on success the position strictly advances to a value terminator |
| `X509Dn.ReadAttrAndValName` | lib/x509/x509_dn.c:122-134 | a name read is non-empty and holds no '=', NUL or space |
| `X509Dn.ReadAttrAndValValue` | lib/x509/x509_dn.c:140-160 | a value read is non-empty and raw exactly when it starts with '#'. It holds no NUL or newline, and it ends in a non-space unless that space is escaped. |
| `X509Dn.ReadAttrAndValSpan` | lib/x509/x509_dn.c:137-160 | a value read is the text from where the value starts (after the '=' and the spaces) up to where it ended, less exactly the trailing spaces that no backslash of the value escapes |
| `X509Dn.Unescape` | lib/x509/x509_dn.c:89-99 | the unescaping of a text value; `UnescapeLength`, `UnescapeStep` and `UnescapeEscape` state what it does |
| `X509Dn.UnescapeLength` | lib/x509/x509_dn.c:89-99 | the output is the input length minus the number of escapes, and at most half the input is escapes |
| `X509Dn.UnescapeStep` | lib/x509/x509_dn.c:90-97 | a backslash before ',', '#' or ' ' yields the escaped character; any other character is copied |
| `X509Dn.UnescapeEscape` | lib/x509/x509_dn.c:89-99 | unescaping the escaped form of any text gives the text back |
| `X509Dn.UnescapeValue` | lib/x509/x509_dn.c:82-100 | the two-index loop produces exactly the unescaped value |
| `X509Dn.ResolveOid` | lib/x509/x509_dn.c:51-74 | a name starting with a digit is its own OID. It is accepted exactly when it is shorter than 128 and is known or the value is raw. Any other name resolves by the LDAP table or is PARSING_ERROR |
| `X509Dn.SetterOutcome` | lib/x509/x509_dn.c:102-108 | a negative setter code is returned as the error; anything else is success |
| `X509Dn.DnTarget.Invoke` | lib/x509/x509_dn.c:102 | a setter call is logged once and returns the setter's response |
| `X509Dn.AttrRecord` | lib/x509/x509_dn.c:38-100 | what the setter is handed for one element, or the error before the call; `DnAttrCrtSet` is proved against it |
| `X509Dn.DnAttrCrtSet` | lib/x509/x509_dn.c:38-109 | any error before the setter makes no call. Otherwise exactly one call is made, with the resolved OID and the decoded raw octets or the unescaped text, and its code is returned |
| `X509Dn.ElementStep` | lib/x509/x509_dn.c:179-202 | an element either ends the run with an error position inside the string and at most one more call, or advances strictly with exactly one more call. The call log only grows |
| `X509Dn.ElementFailsAtStart` | lib/x509/x509_dn.c:179-194 | the error position is left at the element's start exactly when the element fails to read, to resolve or to set, and a read error is returned as it is with no call |
| `X509Dn.SeparatorRule` | lib/x509/x509_dn.c:188-202 | after an element that is set and the spaces after it, a character other than ',', NUL or a newline is PARSING_ERROR with the error position at that character; a ',' is skipped |
| `X509Dn.SeparatorStep` | lib/x509/x509_dn.c:199-202 | the separator test after an element is set; `SeparatorRule` states when it stops the run and where it goes on |
| `X509Dn.SetDnFrom` | lib/x509/x509_dn.c:178-205 | the element loop from a position until NUL or a newline; `SetDnCallsGrow`, `SetFormattedDn` and `NewlineBeforeElementIsParsingError` state what runs of it give |
| `X509Dn.NewlineBeforeElementIsParsingError` | lib/x509/x509_dn.c:146-202 | on "CN=a\nO=b" the newline is skipped as a space and the run is PARSING_ERROR at position 5, after CN is set |
| `X509Dn.SetElement` | lib/x509/x509_dn.c:180-202 | one pass of the loop is the element step, and the target's log is the step's calls |
| `X509Dn.CrtSetDn` | lib/x509/x509_dn.c:167-206 | a NULL target or string is INVALID_REQUEST with no error position. Otherwise the code, error position and calls are those of the element loop run from the start |
| `X509Dn.SetDnCallsGrow` | lib/x509/x509_dn.c:178-205 | a run only appends calls, and a failed run reports an error position inside the string |
| `X509Dn.CrtSetSubjectDn` | lib/x509/x509_dn.c:222-228 | the certificate subject entry point is the loop with the subject setter |
| `X509Dn.CrtSetIssuerDn` | lib/x509/x509_dn.c:243-250 | the certificate issuer entry point is the loop with the issuer setter |
| `X509Dn.CrqSetDn` | lib/x509/x509_dn.c:265-271 | the request entry point is the loop with the request setter |
| `X509Dn.DnSetStr` | lib/x509/x509_dn.c:294-304 | the DN structure entry point is the loop with the DN setter |
| `X509Dn.EscapeAppend` | lib/x509/x509_dn.c:89-99 | escaping distributes over concatenation |
| `X509Dn.EscapedChars` | lib/x509/x509_dn.c:146-147 | an escaped value holds no NUL or newline, and every comma in it is preceded by a backslash, so it never ends a value early |
| `X509Dn.EscapedEnds` | lib/x509/x509_dn.c:137-157 | an escaped writable value starts with neither a space nor '#', does not end in a backslash, and any final space is escaped |
| `X509Dn.ReadFormattedRdn` | lib/x509/x509_dn.c:111-165 | reading "name=escaped value", followed by ',' or NUL, gives that name and escaped value back, not raw, ending at the separator |
| `X509Dn.FormattedElementStep` | lib/x509/x509_dn.c:179-202 | such an element advances past its separator with exactly one setter call for the RDN |
| `X509Dn.SetFormattedDn` | lib/x509/x509_dn.c:178-205 | a comma-joined list of settable RDNs sets successfully with one call per RDN, in order |
| `X509Dn.DnRoundTrip` | lib/x509/x509_dn.c:167-206 | setting the formatted form of any list of settable RDNs succeeds, with exactly one call per RDN in order |
| `X509Dn.AsWrittenTrimBreaksRoundTrip` | lib/x509/x509_dn.c:153-157 | the RDN CN with a one-space value formats as "CN=\ ". The C trim reads its value back as a lone backslash; the corrected trim gives the space |
| `Debug.HexPair` | lib/debug.c:51-52 | each octet gives two characters |
| `Debug.Hex` | lib/debug.c:50-53 | the dump of n octets has 2n characters |
| `Debug.HexSnoc` | lib/debug.c:50-53 | the dump of one more octet appends that octet's two digits |
| `Debug.HexNibbles` | lib/debug.c:51-52 | characters 2i and 2i+1 are the table digits of the high and low nibble of octet i |
| `Debug.NibbleValue` | lib/debug.c:28 | a digit's value indexes that digit in the lower-case table |
| `Debug.Unhex` | lib/debug.c:28 | a string that decodes has twice as many characters as the octets it gives |
| `Debug.UnhexHex` | lib/debug.c:41-57 | decoding the dump gives the buffer back, so no two buffers share a dump |
| `Debug.HexUnhex` | lib/debug.c:41-57 | every string that decodes is the dump of what it decodes to, so the lower-case dump is the only spelling |
| `Debug.Bin2Hex` | lib/debug.c:41-57 | an allocation failure gives NULL. Otherwise the result is the 2n-digit dump followed by one NUL, so empty input gives just the NUL |
| `Debug.AlertToString` | lib/debug.c:126-202 | the result is "Unknown Alert" exactly for the codes without a case |
| `Debug.AlertNamesDistinctOrdered` | lib/debug.c:129-202 | two known alert codes, the first smaller, have different names |
| `Debug.AlertNamesDistinct` | lib/debug.c:129-202 | a known alert's name belongs to no other code |
| `Debug.PacketToString` | lib/debug.c:205-231 | the result is "Unknown Packet" exactly for types other than 20-23 |
| `Debug.PacketNamesDistinct` | lib/debug.c:211-228 | a known content type's name belongs to no other type |
| `HashInt.IsSha` | lib/gnutls_hash_int.h:162-169 | the result is 0 or 1, and 1 exactly for the digests of the SHA family: SHA-1, SHA-224, SHA-256, SHA-384 and SHA-512 |
| `HashInt.HashBlockLen` | lib/gnutls_hash_int.h:174-190 | the block length is 0 or 64 |
| `HashInt.BlockLenKnownDigests` | lib/gnutls_hash_int.h:174-190 | the length is 64 exactly for the SHA family, MD5 and RIPEMD-160 |
| `HashInt.MacHandle.Mac` | lib/gnutls_hash_int.h:81-89 | empty text returns 0 with no backend call. Otherwise one hash call is logged and its code returned |
| `HashInt.MacHandle.MacOutput` | lib/gnutls_hash_int.h:91-98 | without a digest buffer nothing happens. With one, the output callback is called once with the MAC length, and its bytes are the digest |
| `HashInt.MacHandle.SetNonce` | lib/gnutls_hash_int.h:100-106 | without a nonce callback the result is 0 and no call is made. Otherwise one nonce call is logged and its code returned |
| `HashInt.DigestHandle.Hash` | lib/gnutls_hash_int.h:114-122 | the result is always 0; exactly one hash call is logged when the text is non-empty, none otherwise |
| `HashInt.DigestHandle.HashOutput` | lib/gnutls_hash_int.h:126-137 | without a digest buffer nothing happens. With one, the output callback is called once with the algorithm's digest length |

## Left out

- NULL output pointers: `r_key`, `dn`, `fpr`, `key`, the `r_size` of `conv_data_to_keyring`, and a NULL `err`. The model always returns what would be written through them. `gnutls_openpgp_fingerprint` with a NULL `fpr` or `fprlen` is modelled like a NULL key.
- Allocation failures: `malloc` in `conv_data_to_keyring`, the blob allocation, `gnutls_malloc` of the certificate, the MEMORY_ERROR of `dn_attr_crt_set`, and `gnutls_datum_append` failing in the two keyring appenders. These are outside the model, except the NULL result of `bin2hex`, which is a parameter.
- `Debug.Bin2Hex`: does not model the `int` indices or the `size_t` overflow of `oldlen * 2 + 1` for buffers near 2^31 or 2^63 octets.
- `OpenPgp.GetKey`: states what the certificate holds only when the last public key converts. After a failed conversion, which the C code ignores, the certificate's contents are not stated.
- `OpenPgp.ConvertLastKey`: the same loop; after a failed conversion the certificate's contents are not stated.
- `OpenPgp.GetKey`: the certificates built for earlier public-key packets, which the C code leaks, are not tracked.
- `X509Dn.DnRoundTrip`: holds for names that resolve to an OID, and for non-empty values that hold no NUL or white space other than the plain space and do not end in a backslash. Other values cannot be written so that this parser reads them back.
- `Keyring.KeyringBlobAt`: the size field is decoded unsigned. The C code builds it from `int` shifts, so a size field of 2^31 or more sign-extends into `size_t`; such records (2 GiB and over) are not modelled as the C code reads them. `Keyring.ReadKeyringBlobAsWritten` decodes it the same way.
- `Hkp.RecvKey`: a host holding a NUL is used whole, where `strlen` and `sprintf` stop at the NUL.
- `OpenPgp.ExtractKeyName`: a user id holding a NUL is used whole, where `strcpy` and `strchr` stop at the NUL.
- `strcpy` of the user id into the fixed `name` field, and the fixed `email` field, of `gnutls_openpgp_name`: buffer sizes are not modelled.
- `alert2str` and `packet2str`: the static result buffer is not modelled; each is a function returning the string.
- The numeric values of the alert, content-type, packet-id and algorithm constants come from headers that are not part of this model. The alert values follow section 7.2 of RFC 2246. The OpenPGP algorithm ids follow section 9.1 of RFC 2440.
- The MPI counts per algorithm (`cdk_key_pk_get_nmpis`) are taken from section 5.5.2 of RFC 2440, because OpenCDK is not part of this model.
- Foreign calls are parameters, not models:
  - OpenCDK parsing, search, signature check and fingerprint computation;
  - `gcry_mpi_scan` and `gcry_mpi_release`;
  - the OID tables and `gnutls_hex_decode2`;
  - the ASN.1 setters;
  - the hash and MAC backends;
  - `_gnutls_hash_get_algo_len`.
- The resolver, socket and read loop of `gnutls_openpgp_recv_key`: they are the `Network` parameter. The read sizes are bounded by the 4096-octet buffer.
- `gnutls_openpgp_keyid`, `gnutls_openpgp_extract_key_version`, `..._creation_time` and `..._expiration_time`, and the secret-key conversion `_gnutls_openpgp_key2gnutls_key`: these are not part of this model.
- `_gnutls_openpgp_cert2gnutls_cert`, `openpgp_sig_to_gnutls_cert` and `iobuf_to_datum`: these are not part of this model.
- The file and armor functions: `is_file_armored`, `gnutls_certificate_set_openpgp_key_file`, `gnutls_certificate_set_openpgp_keyring_file` and `..._keyring_mem`. They read files and decode armor through OpenCDK.
- `dump_mpi`, `_print_state` and the `_print_TLS*` functions in `lib/debug.c`: they print to stderr.
- The SSL3 helpers, and the init, deinit and fast variants declared in `lib/gnutls_hash_int.h`: they have no visible bodies.
- `lib/mem.h` and `lib/x509/crl.h`: they hold only prototypes, macros and a struct.

Where the module documentation of the code says otherwise, the model follows the code:

- The HKP request ends after the Host line, without the blank line an HTTP request needs.
- When verification reports a key state that is not listed, the result is the signature check's own return code (0 after the downgrade), not CORRUPTED.
- The newline after a DN value is consumed by the space skip that follows it. So "CN=a\nO=b" is a PARSING_ERROR at the 'O', not the end of the DN (`X509Dn.NewlineBeforeElementIsParsingError`).
- Alert 80 (internal_error of RFC 2246) has no case and is named "Unknown Alert".
- SHA-384 and SHA-512 get block length 64 as written, not the 128 of FIPS 180-4.
- The fingerprint length is chosen by algorithm, not by key version.

## Findings

| source | as written | input that shows it | evidently intended | confidence | as-written member | corrected member |
|---|---|---|---|---|---|---|
| lib/gnutls_openpgp.c:127-145 | `pos > keyring->size` lets `pos == size` through, and neither the 5-octet header nor `size` octets of payload are checked against the buffer | an empty keyring at position 0; `01 00` at 0; `01 00 00 00 09 41` (size 9, one payload octet) at 0 | reject a record whose header or payload does not fit in the keyring | not executed | `Keyring.AsWrittenReadsPastEnd` | `Keyring.ReadBlobRejects` |
| lib/gnutls_openpgp.c:353-355 | after a failed scan at index i, `release_mpi_array(cert->params, i-1)` releases i - 1 slots, and at i = 0 the `size_t` count wraps to 2^64 - 1 | the first MPI fails to scan: the release walks past the 6-slot array; the third fails: slot 1 keeps its MPI | release exactly the i slots filled | not executed | `OpenPgp.AsWrittenReleaseMisses` | `OpenPgp.ScanInto` |
| lib/x509/x509_dn.c:153-157 | the escape test is guarded by `val->size-2 > 0`, which is false for a two-character value | "CN=\ " (value backslash-space): the escaped space is trimmed and the setter gets a lone backslash | keep a trailing space whenever a backslash precedes it | not executed | `X509Dn.AsWrittenTrimBreaksRoundTrip` | `X509Dn.DnRoundTrip` |
| lib/gnutls_openpgp.c:794-797 | `memcpy(dn->email, uid->name+pos1, pos2-pos1)` assumes '<' comes before '>'; otherwise the length wraps | user id "a>b<c": 2^64 - 2 characters are copied from a 5-character string | leave the e-mail empty unless '<' precedes '>' | not executed | `OpenPgp.EmailAsWrittenOverruns` | `OpenPgp.ExtractKeyNameIsFirstUid` |
