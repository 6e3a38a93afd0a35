# A verified model of rskrb5

rskrb5 is a Kerberos library in Rust. This project models its self-contained logic in Dafny and proves what
that logic promises. Each module follows one part of the library:

| module | part |
|---|---|
| `Bytes`, `Clock`, `CryptoError`, `Wire` | results, bytes, times, integers in either byte order, the cursor of the two file formats |
| `Cbc`, `Cts`, `Nfold`, `Des3Key`, `Derive`, `Seal` | the crypto constructions of `src/crypto.rs` |
| `DerTrim` | cutting DES3 padding off a DER message (`src/der.rs`) |
| `Der`, `OidCodec`, `Spnego`, `Gss` | the DER reader and writer, object identifiers, negotiation tokens, Wrap and MIC tokens (`src/spnego/`, `src/spnego.rs`) |
| `Ccache`, `CcacheRoundTrip`, `CcacheIo`, `CcacheEdit` | MIT credential caches, versions 1 to 4 (`src/ccache.rs`) |
| `Keytab` | MIT keytabs, versions 1 and 2 (`src/keytab.rs`) |
| `Layouts` | both file formats byte by byte |
| `Replay` | the acceptor's checks and its replay cache (`src/service.rs`) |
| `Pac` | the PAC buffer table and its zeroed signatures (`src/pac.rs`) |
| `Sessions`, `Referral`, `ClientState`, `ClientTimes`, `ClientCaches`, `ClientExport`, `TokioClient` | KDC replies, referrals, and the client's session caches (`src/client.rs`, `src/client/transport.rs`) |

How the parts are modelled:

- Block ciphers, HMACs, digests and keystreams are functions passed as parameters. All that is assumed of them is
  that block decryption inverts block encryption for one key, and the sizes of their results.
- Each wire format has a specification as functions on byte strings. The parsing and writing loops are methods
  proved to compute it for every input, errors included; the round trips are lemmas about it.
- What the specification functions compute is stated once more without them: on the primitives, byte by byte, on
  fields and times (the members named `...Is`, `...As`, `...Exact`, and `Layouts` and `ClientTimes`).
- KDCs are arbitrary: a reply is any value, and only the checks of `process_as_rep` and `process_tgs_rep_inner`
  stand between it and the client. Clocks, confounders, nonces and configuration are parameters too.
- Properties over runs are stated on explicit states and events: the replay cache shared by any number of
  validators, and the client's three session fields under every mutating method.
- Where a promise holds only under a condition, the condition is proved exact: object identifiers with a second
  arc of 40 or more, negative etypes in keytabs, DES3-sealed tokens that need padding, overlapping PAC buffers,
  eviction ages below the bound, clients whose sessions do not survive a credential cache.

Where the code differs from what its own text suggests, the model follows the code:

- `decode_u32` (src/spnego/der.rs:181-193) shifts the top byte of a five-byte integer out; see `Der.DecodeU32Exact`.
- The arc decoder of object identifiers (src/spnego/der.rs:136-148) drops the same way what leaves 32 bits; see
  `OidCodec.DecodeArcExact` and `OidCodec.OidHasAlias`.
- Keytab entries read signed 16-bit lengths and etypes but write unsigned ones (src/keytab.rs:450-498).
- A failing `update_ccache` has already removed this client's tickets (src/client.rs:666-674); see
  `ClientExport.UpdateStoresSessions`.
- Replay keys leave out the fraction of a second an authenticator's ctime can carry (src/service.rs:750-755), so two
  authenticators can share one. With fractions the run below the bound of `Replay.SafeIsExact` presents two such
  authenticators; for one authenticator to a key `Replay.SafeForOneAuthenticator` gives the exact bound.
- A replayed key has its time replaced in the cache although it is refused (src/service.rs:217-219).
- After a login the primary TGT can be the one held before (src/client.rs:1075-1088); see
  `ClientState.LoginKeepsTheBetter`.
- A time before 1970 with a fraction of a second has the fraction subtracted (src/service.rs:877-889).

`dafny verify dfyconfig.toml` checks the project.

## Model

| member | source | states |
|---|---|---|
| Cbc.CbcEncrypt | src/crypto.rs:1402-1417 | The chaining loop computes the recursive CBC of the plaintext and returns the last ciphertext block as the next chaining value. |
| Cbc.CbcDecrypt | src/crypto.rs:1419-1436 | The decrypting loop computes the recursive CBC inverse, chaining on ciphertext blocks. |
| Cbc.CbcDecEnc | src/crypto.rs:1402-1436 | CBC decryption undoes CBC encryption, for every initial vector and whole number of blocks. |
| Cbc.CbcEncDec | src/crypto.rs:1402-1436 | CBC encryption undoes CBC decryption. |
| Cbc.CbcEncBlock | src/crypto.rs:1402-1417 | Each ciphertext block is the encryption of its plaintext block xored with the ciphertext block before it, or with the vector. |
| Cbc.CbcDecBlock | src/crypto.rs:1419-1436 | Each plaintext block is the decryption of its ciphertext block xored with the ciphertext block before it, or with the vector. |
| Bytes.XorNatBits | src/crypto.rs:1409-1411 | Exclusive or, bit by bit. |
| Cbc.ZeroPad | src/crypto.rs:1643-1648 | The remainder arithmetic appends the fewest zeros that fill the last block, and none when it is full. |
| Cts.SwapLastTwoBlocks | src/crypto.rs:1650-1655 | In place, the last two blocks change places and every other byte stays. |
| Cts.AesCtsEncrypt | src/crypto.rs:1300-1351 | The three length regimes all compute one uniform construction: pad, chain, swap the last two blocks, cut to the input length (section 5 of RFC 3962). |
| Cts.ChainedShape | src/crypto.rs:1300-1351 | Beyond one block the ciphertext is the CBC of the zero-padded plaintext with its last block moved in front of the one before, of which as many bytes stay as the plaintext ends with. |
| Cts.SingleBlock | src/crypto.rs:1300-1313 | Up to one block the ciphertext is the encryption of the plaintext filled with zeros. |
| Cts.StealLast | src/crypto.rs:1325-1351 | The stolen-block regime computes that same construction, and the next chaining value. |
| Cts.AesCtsDecrypt | src/crypto.rs:1353-1400 | The three decrypting regimes compute the inverse construction, and refuse less than a block. |
| Cts.DecryptExact | src/crypto.rs:1362-1370 | The exact-multiple regime, swapping back first, computes the inverse construction. |
| Cts.DecryptStolen | src/crypto.rs:1368-1400 | Completing the stolen block from the decrypted last one gives the inverse of the uniform construction. |
| Cts.CtsDecEnc | src/crypto.rs:1300-1400 | decrypt(encrypt(p)) = p for every p of at least one block. |
| Cts.CtsEncDec | src/crypto.rs:1300-1400 | encrypt(decrypt(c)) = c for every c of at least one block, so the cipher is a length-preserving bijection there. |
| Cts.CtsDecEncShort | src/crypto.rs:1300-1351 | A plaintext shorter than a block comes back filled with zeros to one block. |
| Nfold.RotateRight | src/crypto.rs:1734-1742 | The bit-moving loop is a rotation: every bit of the input is found `steps` places further, cyclically. |
| Nfold.RotationUnique | src/crypto.rs:1734-1742 | Only one byte string is the rotation of another by a given number of bits. |
| Nfold.OnesComplementAddition | src/crypto.rs:1744-1776 | The sum with its carry wrapped around, as numbers; the recursion happens at most once because a wrapped sum plus one cannot carry again. |
| Nfold.GcdLoop | src/crypto.rs:1794-1801 | The loop computes the greatest common divisor. |
| Nfold.GcdDivides | src/crypto.rs:1794-1801 | The result divides both numbers. |
| Nfold.GcdGreatest | src/crypto.rs:1794-1801 | Every common divisor divides the result. |
| Nfold.LcmMultiple | src/crypto.rs:1790-1792 | `lcm` is a common multiple, so the copies end on a chunk boundary. |
| Nfold.LcmLeast | src/crypto.rs:1790-1801 | And the least one: no smaller positive number is a multiple of both. |
| Nfold.Replicate | src/crypto.rs:1182-1190 | The copying loop concatenates the copies, copy i rotated right by 13*i bits. |
| Nfold.FoldChunks | src/crypto.rs:1192-1199 | Adding up all chunks gives the residue of the whole string modulo 2^n - 1; `chunks_exact` leaves no byte out. |
| Nfold.NfoldBytes | src/crypto.rs:1176-1200 | n-fold is exact: 0 for a zero string, else ((S-1) mod (2^n-1)) + 1 for the big-endian value S of as many copies as fill a least common multiple, copy i with every bit moved 13*i places to the right, cyclically (section 5.1 of RFC 3961). |
| Nfold.NfoldUnique | src/crypto.rs:1176-1200 | Only one byte string is the n-fold of another by that description, bit positions and residue. |
| Des3Key.StretchKeepsBits | src/crypto.rs:1579-1612 | Stretching 56 bits to a DES key keeps all of them recoverable and gives every byte odd parity. |
| Des3Key.StretchBits | src/crypto.rs:1579-1612 | The top seven bits of each seed byte stay, its lowest goes to bit i+1 of the last byte, and the lowest bit of every byte makes its parity odd. |
| Des3Key.WeakKeysAre | src/crypto.rs:1620-1641 | The weak-key table is the sixteen alternations of two of the bytes 01, 1f, e0, fe with their second-half partners. |
| Des3Key.FixWeakExact | src/crypto.rs:1614-1618 | A weak block has the upper half of its last byte flipped; any other block is left alone. |
| Des3Key.FixWeakWorks | src/crypto.rs:1614-1641 | After the fixup a block with odd parity is on no weak-key list and still has odd parity. |
| Des3Key.KeyFromIsGood | src/crypto.rs:1562-1577 | Every byte of a derived DES3 key has odd parity and none of its blocks is weak. |
| Des3Key.Des3RandomToKey | src/crypto.rs:1562-1577 | The loop over seven-byte groups makes that key, or refuses a seed of another length. |
| Derive.StreamIsIterates | src/crypto.rs:126-147 | Block k of the stream from any first block is the k-fold encryption of that block. |
| Derive.DeriveRandom | src/crypto.rs:126-147 | For a usage that is not empty: exactly the requested number of bytes, byte k*size + j being byte j of the k+1-fold encryption of the n-fold of the usage; the n-fold by its residue and bit positions, not by its algorithm. |
| Derive.DerivedUnique | src/crypto.rs:126-147 | Only one byte string of each length is derived from a usage by that description. |
| Derive.UsageConstantIs | src/crypto.rs:1657-1660 | A usage constant is the big-endian usage number and the suffix byte. |
| Derive.EtypeTable | src/crypto.rs:48-90 | The etype numbers with their key, confounder and MAC lengths. |
| Derive.DeriveKey | src/crypto.rs:119-147 | Key derivation of every etype in terms of the primitives: the derived stream for AES-SHA1, its 21 bytes stretched and fixed for DES3, HMAC of counter, label, zero byte and bit length for RFC 8009 (128, 256 or 192 bits by the label), HMAC-MD5 of the label for RC4. A wrong protocol key length is refused first, then an empty label. |
| Derive.KeyForIs | src/crypto.rs:362-512 | The specified key is that key, for every etype, key and label. |
| Derive.Des3CbcEncrypt | src/crypto.rs:1486-1507 | CBC of the zero-padded plaintext with the next chaining value; an empty plaintext is refused. |
| Derive.Des3CbcDecrypt | src/crypto.rs:1509-1538 | The CBC inverse for whole blocks; anything shorter or ragged is refused with its error. |
| Seal.EncryptMessage | src/crypto.rs:1098-1120 | Per etype, on the primitives: AES-SHA1 is the CTS of confounder and message under the key for 0xaa and the first 12 bytes of HMAC-SHA1 of confounder and message under the key for 0x55; RFC 8009 has 16 or 24 bytes of HMAC over a zero vector and the ciphertext; DES3 the CBC and HMAC-SHA1 of the padded plaintext; RC4 the HMAC-MD5 of the plaintext and the plaintext under the key made from it. It succeeds exactly on the right key and confounder lengths, refused in that order. |
| Seal.DecryptMessage | src/crypto.rs:1122-1136 | Per etype, on the primitives: the plaintext behind the confounder is returned exactly when the MAC bytes are the ones sealing that plaintext (or, for RFC 8009, that ciphertext) makes, and else the integrity check fails; a ragged DES3 body is refused first. |
| Seal.SealedIs | src/crypto.rs:185-210 | The specified sealed form is that expression in the primitives, for all six etypes. |
| Seal.OpenedIs | src/crypto.rs:212-244 | And so is what opening gives. |
| Seal.OpenUndoesSeal | src/crypto.rs:178-244 | decrypt_message recovers what encrypt_message_with_confounder sealed: the message itself for AES-SHA1, AES-SHA2 and RC4, the message and its block-filling zeros for DES3. |
| Seal.SealUndoesOpen | src/crypto.rs:212-244 | Whatever is accepted was sealed: the confounder found inside rebuilds the very bytes that were opened. |
| Seal.OpensExactlySealed | src/crypto.rs:417-475 | A byte string opens to a message if and only if it is that message sealed under some confounder. |
| Seal.ConstantTimeEq | src/crypto.rs:1722-1732 | The accumulating comparison is equality. |
| Seal.MsMsgType | src/crypto.rs:1662-1679 | The four usage bytes are the renumbered usage in groups of seven bits, each but the last marked, cut off after four. |
| Seal.VarintInverse | src/crypto.rs:1662-1679 | A renumbered usage below 2^28 is recovered from its four bytes, so such usages keep distinct message types. |
| Seal.VarintBytes | src/crypto.rs:1662-1679 | The four bytes written out, for every usage. |
| Seal.Rc4CryptTwice | src/crypto.rs:1681-1690 | RC4 is its own inverse for one key. |
| Seal.Checksum | src/crypto.rs:1070-1078 | Per etype, on the primitives: the truncated HMAC of all the data under the key for 0x99, and for RC4 the HMAC-MD5 under the signature key of the digest of message type and data. |
| DerTrim.TopLevelDerEnd | src/der.rs:15-48 | The tag and length loops find the end specified for the first element. |
| DerTrim.EndOfIsExact | src/der.rs:15-48 | The end found is k if and only if the first k bytes are one definite-length element, low- or high-tag form. |
| DerTrim.TrimZeroPaddedDer | src/der.rs:1-10 | The method trims as specified. |
| DerTrim.TrimPadded | src/der.rs:1-10 | One element followed by any number of zeros is trimmed to exactly that element. |
| DerTrim.TrimIsExact | src/der.rs:1-10 | For every input: the element in front of nothing but zeros, else the input itself. |
| DerTrim.TrimIdempotent | src/der.rs:1-10 | Trimming twice is trimming once, for every input. |
| DerTrim.SealedMessageRecovered | src/ticket.rs:35-53 | A DER message sealed under any etype, DES3 included, is recovered byte for byte after trimming. |
| Der.WriteLen | src/spnego/der.rs:220-234 | The length loop writes the shortest definite form. |
| Der.ReadLenEncoded | src/spnego/der.rs:75-99 | Reading a written length gives it back and leaves what follows, for all 64-bit lengths. |
| Der.EncodeLenShortest | src/spnego/der.rs:75-99 | No accepted length encoding is shorter than the one written. |
| Der.EncodeLenIs | src/spnego/der.rs:220-234 | Below 128 the length itself, else 0x80 plus the number of octets and its octets without a leading zero. |
| DerTrim.ReadLenExact | src/spnego/der.rs:75-99 | The reader accepts exactly the definite lengths of up to eight octets, in front of anything. |
| DerTrim.ReadTlvExact | src/spnego/der.rs:30-51 | The reader accepts exactly a one-octet tag, such a length and that much content. |
| Der.DerReader.ReadLength | src/spnego/der.rs:75-99 | The reader advances over the length and returns it, or fails, as specified. |
| Der.DerReader.ReadTlvAt | src/spnego/der.rs:30-51 | The reader returns tag and value and stops right behind them, or reports the specified error. |
| Der.DerReader.ReadBytes | src/spnego/der.rs:53-61 | The requested bytes, the reader behind them; or the error for a length beyond the input. |
| Der.ReadTlvEncoded | src/spnego/der.rs:30-51 | Reading encode_tlv(tag, v) followed by any suffix gives (tag, v) and leaves the suffix, for every low-form tag and 64-bit length. |
| Der.ReadTlvSound | src/spnego/der.rs:30-51 | Whatever is read is the value in front of the rest, at least as long as its own encoding. |
| Der.WriteTlv | src/spnego/der.rs:212-218 | Tag, shortest length, value. |
| Der.ReadSingleTlv | src/spnego/der.rs:102-113 | Exactly one element with the expected tag and nothing behind it, or the specified error. |
| Der.WriteU32 | src/spnego/der.rs:195-206 | The shortest nonnegative INTEGER content for the value. |
| Der.EncodeU32Is | src/spnego/der.rs:195-206 | The content octets have that value, are not negative, and none of them could be left out. |
| Der.ReadU32 | src/spnego/der.rs:181-193 | The shifting loop computes the specified value. |
| Der.DecodeEncodedU32 | src/spnego/der.rs:181-206 | decode_u32(encode_u32(n)) = n for all u32. |
| Der.DecodeU32Exact | src/spnego/der.rs:181-193 | An accepted integer keeps its value exactly when a fifth byte is not led by a nonzero one; the shift drops the overflow. |
| OidCodec.WriteBase128 | src/spnego/der.rs:168-179 | Filling the five-byte array from its end writes the base-128 digits. |
| OidCodec.Base128Is | src/spnego/der.rs:168-179 | The octets spell the arc in base 128, each but the last marked, and none is an empty leading digit. |
| OidCodec.ReadArc | src/spnego/der.rs:133-150 | The accumulating loop returns the specified arc and stops behind its last octet, and fails only when the octets run out; `checked_shl(7)` never refuses. |
| OidCodec.DecodeArcExact | src/spnego/der.rs:136-148 | An accepted arc is its base-128 number modulo 2^32, so it keeps the number if and only if that is below 2^32. |
| OidCodec.OidHasAlias | src/spnego/der.rs:125-152 | So 1.2.5 has a second encoding, through an arc of 2^32 + 5. |
| OidCodec.WriteOid | src/spnego/der.rs:154-166 | The identifier encoder writes the specified octets, or refuses invalid arcs. |
| OidCodec.ReadOid | src/spnego/der.rs:125-152 | The identifier decoder returns the specified arcs or error. |
| OidCodec.EncodeOidIs | src/spnego/der.rs:154-166 | Which arc lists can be written, and that 40 times the first arc plus the second comes first, then each arc. |
| OidCodec.DecodeOidIs | src/spnego/der.rs:112-131 | Which octets are an identifier, and that the first of them is 40 times the first arc plus the second. |
| OidCodec.SpnegoOctets | src/spnego/oid.rs:18-21 | The identifier of SPNEGO in octets. |
| OidCodec.Krb5Octets | src/spnego/oid.rs:8-11 | The identifier of the Kerberos 5 mechanism in octets. |
| OidCodec.DecodeEncodedOid | src/spnego/oid.rs:41-49 | For every valid arc list, decoding its encoding gives it back if and only if the second arc is below 40, because the decoder takes both leading arcs from one byte. |
| Spnego.WriteInit | src/spnego.rs:681-719 | The writer of a NegTokenInit produces the specified fields in order. |
| Spnego.WriteResp | src/spnego.rs:795-825 | The writer of a NegTokenResp produces exactly the fields that are present. |
| Spnego.EncodeInitIs | src/spnego.rs:681-719 | The octets of an initial token by literal tags: 0xa0, a sequence, and in it [0] the identifiers in order, [1] a bit string, [2] and [3] octet strings, each if present. |
| Spnego.EncodeRespIs | src/spnego.rs:795-825 | The octets of a response by literal tags: 0xa1, a sequence, and in it [0] the state octet, [1] an identifier, [2] and [3] octet strings, each if present. |
| Spnego.EncodeTokenIs | src/spnego.rs:909-919 | On the wire an initial token stands in 0x60 behind the identifier of SPNEGO, a response on its own. |
| Spnego.ReadInit | src/spnego.rs:1742-1798 | The field loop over a NegTokenInit returns the specified token or error. |
| Spnego.ReadResp | src/spnego.rs:1800-1850 | The field loop over a NegTokenResp returns the specified token or error. |
| Spnego.ReadToken | src/spnego.rs:877-907 | Framed and bare tokens are told apart and decoded as specified. |
| Spnego.TokenRoundTrip | src/spnego.rs:850-919 | decode(encode(t)) = t for every Init and Resp token, any mix of optional fields and any payload, if and only if every identifier in it has a second arc below 40 (section 4.2 of RFC 4178). |
| Spnego.AcceptedToken | src/spnego.rs:877-907 | What an accepted token starts with; a framed one has the identifier of SPNEGO inside, and an initial one lists a mechanism. |
| Spnego.TrailingRefused | src/spnego.rs:877-907 | Anything behind a token is refused as trailing data. |
| Spnego.UnknownFieldRefused | src/spnego.rs:1742-1850 | A field of another tag than 0xa0 to 0xa3 is refused by its tag. |
| Spnego.ReadMech | src/spnego.rs:568-597 | The mechanism token decoder returns the specified token or error. |
| Spnego.MechRoundTrip | src/spnego.rs:568-609 | A mechanism token is decoded to itself if and only if it names the Kerberos 5 mechanism. |
| Spnego.EncodeMechIs | src/spnego.rs:599-609 | A mechanism token in octets: 0x60 around the identifier, the two octets of its kind, and the message. |
| Gss.RotateLeftUndoesRight | src/spnego.rs:1310-1339 | Rotating left undoes rotating right, for counts beyond the length too. |
| Gss.RotateRightAt | src/spnego.rs:1310-1324 | Each byte moves right by the count, cyclically. |
| Gss.WrapHeaderIs | src/spnego.rs:1299-1308 | The sixteen header bytes: 05 04, flags, ff, both counts and the sequence number big-endian. |
| Gss.EncodeWrapIs | src/spnego.rs:289-315 | An encoded token is the header and the sealed body, or the header, the payload and a checksum of exactly the announced length; else the error named. |
| Gss.DecodeWrapExact | src/spnego.rs:235-287 | Exactly which byte strings are Wrap tokens from the expected side. |
| Gss.WrapChecksumIs | src/spnego.rs:488-499 | The checksum covers the payload and the header with both counts zero, byte by byte. |
| Gss.SealWrapIs | src/spnego.rs:409-434 | What is sealed is the payload, zeros and the header with the sealed flag and a zero rotation count, byte by byte; the body is that, sealed and rotated right. |
| Gss.WrapToken.SetChecksum | src/spnego.rs:323-341 | The token gets its checksum and a zero extra count becomes the checksum length; nothing else changes. |
| Gss.WrapToken.ComputeChecksum | src/spnego.rs:488-499 | The keyed checksum of the payload followed by 05 04, the flags, ff, four zero bytes and the sequence number. |
| Gss.WrapToken.EncryptPayload | src/spnego.rs:409-434 | The whole new token: sealed flag, rotated sealed body, payload kept, checksum dropped. On an error only the sealed flag is set, and not even that when there was a sealed body already. |
| Gss.WrapToken.DecryptPayload | src/spnego.rs:436-467 | Opening rotates back, decrypts, and checks the header embedded with a zero rotation count. |
| Gss.WrapToken.DecryptAndSetPayload | src/spnego.rs:470-482 | The same, storing the payload. |
| Gss.WrapToken.Verify | src/spnego.rs:343-356 | True only for the checksum recomputed over payload and zero-count header; missing and different checksums are errors. |
| Gss.WrapRoundTrip | src/spnego.rs:235-315 | A token that encodes is decoded to itself, less what the wire does not carry. |
| Gss.WrapCanonical | src/spnego.rs:235-315 | Every accepted Wrap token encodes back to the very bytes it came from. |
| Gss.SealedWireRoundTrip | src/spnego.rs:409-467 | A sealed token crosses the wire unchanged but for its payload. |
| Gss.SealedWrapRoundTrip | src/spnego.rs:409-467 | Encrypt, encode, decode, decrypt gives the payload for every payload, extra count, rotation count and sequence number; under DES3 exactly when payload and extra count fill whole blocks, and otherwise the header check refuses the token (sections 4.2.4 and 4.2.5 of RFC 4121). |
| Gss.OpensExactly | src/spnego.rs:436-467 | A token opens to a payload if and only if it is marked sealed and its body is that payload, any filler of the announced length and its own header with a zero rotation count, sealed under some confounder and rotated; opening never looks at the filler, which sealing writes as zeros. |
| Gss.SignedWrapRoundTrip | src/spnego.rs:289-356 | A signed token survives the wire and verifies exactly when its extra count was zero or the checksum length; otherwise it cannot be encoded. |
| Gss.MicRoundTrip | src/spnego.rs:105-135 | A MIC token comes back without the payload, which the wire does not carry. |
| Gss.MicHeaderIs | src/spnego.rs:129-135 | The sixteen bytes in front of a MIC: 04 04, flags, five ff, the sequence number big-endian. |
| Gss.DecodeMicExact | src/spnego.rs:105-127 | Exactly which byte strings are MIC tokens from the expected side. |
| Gss.MicCanonical | src/spnego.rs:105-135 | Every accepted MIC token encodes back to the very bytes it came from. |
| Gss.MicChecksumIs | src/spnego.rs:173-195 | The checksum of a MIC token covers the payload and the token header, byte by byte. |
| Gss.MicToken.SetChecksum | src/spnego.rs:143-149 | The token gets the checksum computed, or an error and nothing changes. |
| Gss.MicToken.Verify | src/spnego.rs:152-159 | True only for the checksum recomputed over payload and header. |
| Gss.SignedMicRoundTrip | src/spnego.rs:105-195 | A signed message verifies with the token received; another message in its place does exactly when it has the same checksum. |
| Ccache.PutReadPrincipal | src/ccache.rs:575-624 | A principal that fits reads back as its version stores it, and leaves what follows: version 1 drops the name type and counts the realm. |
| Ccache.ReadPutPrincipal | src/ccache.rs:575-624 | Whatever reads as a principal is exactly its encoding followed by the rest, and fits. |
| Ccache.PutReadRaw | src/ccache.rs:685-766 | A credential reads back from its encoding, with any bytes behind it. |
| Ccache.ReadPutRaw | src/ccache.rs:685-766 | Whatever reads as a credential is exactly its encoding, the session-key byte and the first etype copy included. |
| Ccache.PutReadHeader | src/ccache.rs:474-506 | A header that fits reads back. |
| Ccache.ReadPutHeader | src/ccache.rs:474-506 | An accepted header is exactly its encoding. |
| Ccache.HeaderErrorNone | src/ccache.rs:495-531 | The writer finds no fault with a header if and only if every field is valid and fits 16 bits. |
| CcacheRoundTrip.ByteForByte | src/ccache.rs:163-213 | For every accepted input of any version, serialization succeeds and parses back to the same cache; and it gives the very input bytes if and only if all credentials are normal. |
| CcacheRoundTrip.NormalMeans | src/ccache.rs:685-766 | Normal means: the is_skey byte is 0 or 1 and, in version 3, the two etype copies agree. |
| CcacheRoundTrip.BuiltCacheReadBack | src/ccache.rs:163-213 | A cache built in memory that can be written parses back to what its version stores, so to itself if and only if it has no name types in version 1 and no header below version 4. |
| Layouts.CcacheWritten | src/ccache.rs:201-213 | A cache is written if and only if its lengths and types fit, and the file is then laid out byte by byte: order of all fields, byte order of each version, doubled etype of version 3, header of version 4. |
| Layouts.CcacheAccepted | src/ccache.rs:163-198 | Every accepted file is laid out that way, and the cache read holds the fields in it. |
| Layouts.CcacheFront | src/ccache.rs:163-180 | The size, first byte and version are checked first, in that order. |
| Layouts.PutRawIs | src/ccache.rs:738-766 | One credential byte by byte. |
| Layouts.PutPrincipalIs | src/ccache.rs:605-624 | One principal byte by byte. |
| CcacheIo.TakePrincipal | src/ccache.rs:575-603 | The principal parser reads as specified and stops there, errors in order. |
| CcacheIo.TakeHeader | src/ccache.rs:474-493 | The header loop, which checks its end only after overrunning it, reads as specified. |
| CcacheIo.TakeList | src/ccache.rs:711-722 | The counted-list loops read as specified. |
| CcacheIo.TakeRaw | src/ccache.rs:685-736 | The credential parser reads as specified. |
| CcacheIo.Parse | src/ccache.rs:163-198 | CCache::parse computes the specified parse, for every input. |
| CcacheIo.WritePrincipal | src/ccache.rs:605-624 | The principal is appended, or a length that does not fit is refused. |
| CcacheIo.WriteCredential | src/ccache.rs:738-766 | The credential is appended, or a length or etype that does not fit is refused. |
| CcacheIo.WriteHeader | src/ccache.rs:495-506 | The header is appended, or the first bad field or an overlong body is refused. |
| CcacheIo.ToBytes | src/ccache.rs:201-213 | CCache::to_bytes computes the specified bytes or error. |
| CcacheEdit.Cache.Upsert | src/ccache.rs:262-271 | The first credential of the same client and server is replaced in place and returned, else the new one goes to the end. |
| CcacheEdit.Cache.RemoveEntriesForClient | src/ccache.rs:292-305 | The removing loop keeps exactly the others, in order, and returns exactly the client's tickets, in order. |
| CcacheEdit.UpdateReplacesTickets | src/client.rs:666-674 | update_ccache leaves configuration entries and other clients' credentials unchanged and in order; this client's tickets become the last session of each slot, all sessions in order if and only if no two share a slot; and no duplicate slot appears where there was none. |
| CcacheEdit.UpsertAllLast | src/ccache.rs:262-271 | After any upserts into an empty cache exactly the last credential of each slot is there. |
| CcacheEdit.UpsertKeepsOthers | src/ccache.rs:262-271 | Upserting a ticket of a client never touches a configuration entry or another client's credential. |
| CcacheEdit.TicketOfIs | src/ccache.rs:292-305 | Removed are the entries of the client's realm and components, but for servers in realm X-CACHECONF: with two or three components, krb5_ccache_conf_data first. |
| CcacheEdit.TicketsInOrder | src/ccache.rs:292-305 | What is kept, and what is removed, is in its old order. |
| Keytab.TakePrincipal | src/keytab.rs:450-478 | The principal parser, component loop and trailing name type, reads as specified. |
| Keytab.TakeEntry | src/keytab.rs:120-165 | An entry's fields with the kvno fallback; bytes behind them are ignored. |
| Keytab.Parse | src/keytab.rs:100-171 | The record loop - stops, holes and entries - computes the specified parse for every input. |
| Keytab.WriteEntry | src/keytab.rs:209-219 | An entry's bytes, or the refusal of a count, length, etype or body that does not fit. |
| Keytab.ToBytes | src/keytab.rs:206-224 | Keytab::to_bytes computes the specified bytes or error. |
| Keytab.WrittenParsesBack | src/keytab.rs:100-224 | A parsed keytab can be written if and only if no entry has a negative etype, and what is written parses to the same keytab. |
| Keytab.BuiltKeytabReadBack | src/keytab.rs:100-224 | A keytab built in memory survives writing and parsing if and only if counts, lengths and etypes are below 2^15, strings are UTF-8, version 1 has no name types, and a zero kvno stands only beside a zero 8-bit kvno. |
| Keytab.HolesChangeNothing | src/keytab.rs:112-128 | A hole of any size from 1 to 2^31-1 and any contents, inserted wherever a record starts, never changes the parsed entries. |
| Keytab.HolesInFile | src/keytab.rs:100-171 | The same for whole keytab files. |
| Layouts.KeytabWritten | src/keytab.rs:206-224 | A keytab is written if and only if every entry fits, and the file is then laid out byte by byte. |
| Layouts.KeytabEnds | src/keytab.rs:100-171 | The front checks, and where reading stops: at a zero length, with fewer than four bytes left, or with an error in a record cut off. |
| Keytab.FindKey | src/keytab.rs:314-349 | The selecting loop returns the key and kvno of the first among the newest matching entries, and none exactly when nothing matches; kvno 0 matches any. |
| Replay.Check | src/service.rs:379-444 | The checks before the replay cache all pass if and only if the request meets every condition, and then give its replay key. |
| Replay.RefusedUnread | src/service.rs:379-400 | Decoding, key lookup and ticket decryption fail first, in that order. |
| Replay.RefusedTicket | src/service.rs:480-538 | Not yet valid if and only if the ticket is flagged invalid or the clock is more than the skew before its start time, or before its authentication time if it has none; expired, addresses and PAC only after that, each exactly when its check is the first to fail. |
| Replay.RefusedAuthenticator | src/service.rs:400-444 | Then the authenticator: unreadable, another client, microseconds out of range, a time further than the skew from the clock; accepted if and only if none of these. |
| Replay.ReplayCache.Insert | src/service.rs:217-219 | The key is stored with the new time, and reported new exactly when it was absent. |
| Replay.ReplayCache.ClearOlderThanAt | src/service.rs:208-215 | Exactly the entries not more than max_age older than now stay; the count removed is returned. |
| Replay.ServiceValidator.ValidateClientAddress | src/service.rs:506-538 | The address loop accepts exactly listed addresses, or no list where none is required. |
| Replay.ServiceValidator.ValidateApReq | src/service.rs:379-478 | Accepted if and only if every check passes and the key is new; the cache changes exactly when every check passes; replays are refused, and nothing recorded as new is refused afterwards. |
| Replay.ValidationIsTwoSteps | src/service.rs:428-478 | A validation, as the method computes it, is a check step followed at any later time by a record step. |
| Replay.StepKeepsInv | src/service.rs:207-219 | One step of any validator or an eviction keeps: every accepted key is cached or too old for any validator to still hold it. |
| Replay.NothingAcceptedTwice | src/service.rs:428-478 | Over every run of validators and evictions on one cache with a clock that never goes back, no (service, client, ctime, cusec) is accepted twice when max_age >= 2*skew + delay between check and record + width of the time window of a key. |
| Replay.SafeIsExact | src/service.rs:207-215 | With fractions of a second up to a bound below one second the width is that bound (0 for whole-second ctimes), and max_age >= 2*skew + delay + bound is exact: from there on every run is safe, below it some run accepts a key twice, with both clock readings of every check in order (section 3.2.3 of RFC 4120). |
| Replay.SafeForOneAuthenticator | src/service.rs:207-215 | Where no two different authenticators share a key, max_age >= 2*skew + delay is exact whatever the fractions. |
| Replay.EachKeyOnce | src/service.rs:269-281 | Without eviction any interleaving of validators, whatever their clocks, accepts each presented key exactly once. |
| Pac.Parse | src/pac.rs:134-183 | Succeeds if and only if the table fits and every buffer is aligned and inside, and otherwise fails for the first reason in that order; the table is read entry by entry and the signature copy starts as the original. |
| Pac.InfoBufferIs | src/pac.rs:154-161 | A table entry byte by byte: type, size and an eight-byte offset, little-endian. |
| Pac.SignatureIs | src/pac.rs:402-423 | A signature buffer byte by byte: type, signature of the length of its type, an identifier if two bytes follow; and each refusal. |
| Pac.SignatureTable | src/pac.rs:1427-1435 | The five checksum types and their signature lengths. |
| Pac.PacContainer.CopyZeroedSignature | src/pac.rs:366-384 | In place, exactly the buffer's range is overwritten; or out of bounds and nothing changes. |
| Pac.PacContainer.ProcessBuffers | src/pac.rs:196-239 | The loop over buffers ends in the specified state, with what was processed before a failure kept; after success the checksums are those of the first buffers of types 6 and 7, and the eight other types hold the bytes of their first buffers. |
| Pac.ParseSignature | src/pac.rs:402-423 | A parsed signature buffer keeps its bytes in the zeroed copy, except the signature bytes of its checksum type. |
| Pac.StepsApply | src/pac.rs:196-239 | The final bytes are the first server and first KDC buffers applied in table order, whatever else the table holds. |
| Pac.StepsFill | src/pac.rs:196-239 | Each field holds what the first buffer of its type holds, from any state. |
| Pac.ProcessedIsCovered | src/pac.rs:196-239 | After success the bytes are the original with exactly the signature bytes of the first server and first KDC buffer zero (type and RODC bytes kept), for any order, if and only if no nonzero byte of the earlier signature is written back by the later buffer (section 2.8 of [MS-PAC]). |
| Pac.DisjointIsCovered | src/pac.rs:196-239 | Buffers that do not overlap always meet that condition. |
| Pac.OverlapNotCovered | src/pac.rs:366-423 | A KDC buffer eight bytes behind the server buffer breaks it: its type byte reappears inside the server signature. |
| Pac.ProcessTwice | src/pac.rs:196-239 | Processing again changes nothing. |
| Referral.GetServiceTicket | src/client/transport.rs:676-747 | For every i, the i-th request goes to the realm the i-th TGT's service ends with, as that TGT's client, with the nonce given; there it asks for the service itself if that is its realm, else for krbtgt/<realm of the service>. A realm missing in the service comes from the configuration, else from the TGT. The loop returns the result of the specified exchange with the referral TGTs. |
| Referral.ExchangeSafe | src/client/transport.rs:676-747 | For arbitrary KDC answers: at most max_referrals+1 requests, each to the realm its TGT names; a chain of accepted TGTs for one client with consecutive realms distinct; and on success the ticket asked for, from the target realm for a service that is no TGT. |
| Referral.ExchangeAsks | src/client/transport.rs:690-716 | What every request of a run asks for, field by field, and what a success brings. |
| Sessions.ProcessAccepts | src/client.rs:2280-2471 | A reply is accepted if and only if client, decryption, FAST data, nonce, service and ticket service all check out, field by field; the session holds what it grants. |
| Sessions.ProcessRefuses | src/client.rs:2280-2471 | Else the error is that of the first check to fail. |
| Sessions.TgtRealmIs | src/client.rs:3434-3448 | A TGT has two components or more, the first krbtgt in any case; its realm is the last. |
| Referral.FollowSafe | src/client/transport.rs:698-745 | The same from any pass of the loop on, with what the last answer was for each way to end. |
| Referral.Answered | src/client.rs:2454-2471 | An answer that passes the checks and is not the service is a TGT, so the loop's own mismatch error is never reached. |
| ClientState.CacheTgtCoherent | src/client.rs:1075-1088 | Caching a TGT keeps coherence and leaves the preferred session under its realm. |
| ClientState.LoginSound | src/client.rs:1106-1150 | Login keeps coherence and the TGT it expects at the end is there. |
| ClientState.LoginKeepsTheBetter | src/client.rs:1106-1150 | After login the only session left is the better of the one won and the primary TGT held before. |
| ClientState.RenewSound | src/client.rs:1153-1185 | Renewal keeps coherence, is for the realm renewed, and the TGT expected afterwards is there. |
| ClientState.GetSound | src/client.rs:1194-1249 | get_service_ticket keeps coherence whatever the KDCs answer, and never panics. |
| ClientState.RemovalCoherent | src/client.rs:965-1038 | Pruning, removing, clearing and destroying keep coherence. |
| ClientState.ApplyCoherent | src/client.rs:965-1440 | Every mutating method keeps a coherent client coherent, and no expectation of a TGT fails. |
| ClientState.RunCoherent | src/client.rs:965-1440 | In every reachable state tgt equals tgt_sessions[client.realm], and both maps are keyed by their sessions; no run panics. |
| ClientCaches.CacheKeyIsExact | src/client.rs:3621-3628 | Names without zero bytes share a cache key if and only if they match. |
| ClientCaches.CacheKeyCollides | src/client.rs:3621-3628 | With a zero byte in a realm two different services share a key. |
| ClientCaches.TicketIsForService | src/client.rs:1194-1249 | Every ticket returned is for the service asked for, in its realm where one is given, and one from the cache was issued for it if names hold no zero byte. |
| ClientCaches.CacheAllKeepsBest | src/client.rs:3593-3618 | Caching any TGTs at one instant leaves for each realm the first maximum under (valid now, end time). |
| ClientCaches.CacheAllOrderFree | src/client.rs:1075-1088 | The result does not depend on the order, up to ties, and a valid TGT is never displaced by an invalid one. |
| ClientTimes.PreferredStays | src/client.rs:3593-3618 | Of two sessions the one valid now stays, then the one that ends later, then the one already there; by their times. |
| ClientTimes.CacheTgtFiles | src/client.rs:1075-1088 | Caching a TGT changes the slot of its realm, and the primary TGT with it, and nothing else. |
| ClientTimes.RenewRealmIs | src/client.rs:1153-1185 | Renewal by the request sent, its answer, and every field afterwards. |
| ClientTimes.RenewCachedIs | src/client.rs:1414-1440 | A cached TGT is renewed exactly while the clock is before its renewal limit and the exchange succeeds. |
| ClientTimes.LoginDoes | src/client.rs:1106-1150 | Login by request and reply; without credentials the TGT held serves while startTime <= now < endTime. |
| ClientTimes.AffirmDoes | src/client.rs:1091-1103 | A TGT returned without an exchange has startTime <= now < endTime. |
| ClientTimes.EnsureDoes | src/client.rs:1343-1361 | The same, and more than a sixth of its lifetime ahead unless it can neither be renewed nor replaced. |
| ClientTimes.FetchDoes | src/client.rs:1222-1249 | A fetched ticket: with which TGT, the answer of the exchange, and all that is cached after it. |
| ClientTimes.TicketDoes | src/client.rs:1194-1249 | The cached ticket is the answer exactly while startTime <= now < endTime, under the name asked for and with nothing changed; else its renewal if now is before renewTill and the exchange succeeds; else a fetched one. |
| ClientTimes.PruneIs | src/client.rs:1008-1030 | A session stays exactly while startTime <= now < endTime or now < renewTill. |
| ClientExport.ImportUndoesExport | src/client.rs:226-252 | One exported session comes back unchanged if and only if it has no key expiration, its renewal limit is not the epoch, and a start at the epoch is its authentication time. |
| ClientExport.ExportedIs | src/client.rs:226-252 | A session in the file, field by field: exported if and only if its times are whole seconds that fit 32 bits. |
| ClientExport.ImportedIs | src/client.rs:3562-3590 | A credential as a session, field by field: a zero start is the authentication time, a zero renewal limit none. |
| ClientExport.LoadIs | src/client.rs:593-612 | What loading does with each credential, by its names. |
| ClientExport.LoadedCoherent | src/client.rs:593-612 | Loading any credential cache gives a coherent client. |
| ClientExport.ReloadIsExact | src/client.rs:654-660 | Exporting a coherent client and loading the result restores both maps and the primary TGT if and only if its sessions are its own, fit and survive the file, none is for a configuration principal, and no TGT is among the service tickets. |
| ClientExport.SavedAndLoaded | src/client.rs:589-660 | The same through the bytes of a version 4 file. |
| ClientExport.ExportExact | src/client.rs:1389-1407 | Exporting a coherent client succeeds if and only if every time of every session is whole seconds from 0 to below 2^32. |
| ClientExport.UpdateStoresSessions | src/client.rs:666-674 | For any sessions of this client, none for a configuration principal: configuration entries and other clients' credentials stay in order in any case; the update succeeds if and only if every time fits, and otherwise leaves the cache stripped of this client's tickets; when it succeeds they are the last session of each slot, all in order if and only if no service ticket has the client and service of a cached TGT; and no duplicate slot appears. |
| TokioClient.Client.CacheTgtSessionAt | src/client.rs:1075-1088 | The method changes tgt and tgt_sessions as specified. |
| TokioClient.Client.CacheServiceTicketAt | src/client.rs:1063-1068 | The preferred ticket is stored under its cache key. |
| TokioClient.Client.RenewTgtSessionForRealm | src/client.rs:1160-1185 | The renewed session replaces the old one, and for the client's realm the primary TGT, clearing the tickets; a failed exchange changes nothing. |
| TokioClient.Client.LoginNow | src/client.rs:1106-1150 | Login as specified, with or without long-term credentials. |
| TokioClient.Client.Affirm | src/client.rs:1091-1103 | A TGT with startTime <= now < endTime is reused, one with now < renewTill renewed, else login. |
| TokioClient.Client.Ensure | src/client.rs:1343-1361 | The same, but a TGT with a sixth of its lifetime or less ahead is renewed or replaced where it can be. |
| TokioClient.Client.RenewCachedTgt | src/client.rs:1414-1440 | A renewable cached TGT is renewed in place; a failed exchange counts as none. |
| TokioClient.Client.GetTicket | src/client.rs:1194-1249 | A cached ticket is served exactly while startTime <= now < endTime, with nothing changed; else renewed if now is before renewTill and the exchange succeeds; else fetched by referrals, and what is learned on the way is cached. |
| TokioClient.Client.PruneUnusable | src/client.rs:1008-1030 | Exactly the sessions with startTime <= now < endTime or now < renewTill stay, and the report counts the others. |
| TokioClient.Client.RemoveTgtSessionForRealm | src/client.rs:965-972 | The session goes, and the primary TGT with its realm; the primary never has to stand in for it. |
| TokioClient.Client.CcacheCredentials | src/client.rs:1389-1407 | All sessions exported in order, or the first time that does not fit. |
| TokioClient.Client.ToCcacheFile | src/client.rs:654-660 | A fresh cache with the exported credentials upserted. |
| TokioClient.Client.UpdateCcache | src/client.rs:666-674 | The principal is set and this client's tickets are removed before the export can fail; then the sessions are upserted one by one. |
| TokioClient.Client.FromCcacheFile | src/client.rs:593-612 | The loading loop passes over configuration entries and other clients. |

## Left out

- AES, DES, RC4, HMAC, MD4, MD5, SHA and PBKDF2 themselves: parameters with the laws named above; `string_to_key` needs them and adds no structure of its own.
- ASN.1 Kerberos messages and their codec: only the checks made after decoding are modelled, on arbitrary decoded values.
- Sockets, DNS, timeouts, the auto-renewal task, files, environment variables, cache and keytab names, JSON, base64: input and output.
- Random nonces and confounders: parameters; a failing random source is not modelled.
- UTF-8: any predicate on byte strings; the two file formats only ask whether a string is valid.
- Buffers of 2^63 bytes and more, and `usize` overflow on narrower targets; allocation limits.
- The offsets and texts carried by error values: an error is its kind, with the lengths and numbers that distinguish it.
- PlaintextTooShort in `decrypt_message`: a plaintext is never shorter than the confounder once the ciphertext passed its length check, so the branch is not repeated.
- TimeOverflow of `SystemTime` arithmetic in the acceptor: the times a KerberosTime can hold stay far inside the range.
- PAC bodies other than the two signatures: each is accepted or refused by an arbitrary predicate and kept as its bytes, in one map instead of eight fields.
- `HostAddress` and `AuthorizationDataEntry` share one datatype, having one layout and one code.
- S4U2Self, S4U2Proxy and SPNEGO contexts: they touch the client's state only through `ensure_tgt` and `get_service_ticket`.
- Iteration order of the client's maps: arbitrary here, sorted in the code.
- Replay.NothingAcceptedTwice: clocks set back and `clear()` are outside its runs; clearing everything forgets every key by design.
- krb5.conf, HTTP and Tower adapters, kpasswd, KRB-PRIV, KRB-SAFE and KRB-CRED wrappers, principal-name parsing: they would only add easy members.
