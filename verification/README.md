# Verified model of the MeshCore client

A LoRa mesh client whose protocol logic is plain Python: it signs and derives keys on Curve25519, encrypts
messages with AES-128 in an encrypt-then-MAC envelope, frames them in packets with learned routes, and resends
what is neither acknowledged nor relayed. This project models that logic in Dafny and proves what it is for.

`dafny verify dfyconfig.toml` checks everything.

## How the files fit together

* **Integers and bytes.** `Bytes`, `Bits`, `Words` and `Modular`: byte strings and the integers they spell, masks and
  shifts as arithmetic, 64-bit words, congruences. A byte is an integer below 256, so wrap-around is always written out.
* **Curve25519.** `Edwards`, `Groups`, `ScalarMult`, `Fermat`, `Points`, `Ed25519`, `Curve25519`, `X25519`,
  `Montgomery`, `KeyExchange`. Everything about the Edwards formulas themselves is unconditional. Two things are explicit
  hypotheses: that the modulus is a prime of the form 8k + 5 (`Points.IsField`), from which inverses, square roots and
  point decompression are proved; and that the points of the curve read as a commutative group, none of them at
  infinity (`ScalarMult.Reads`, `Ed25519.Assumed`). The laws of the ladder (`X25519.XOnlyLaws`) are derived from the
  same ones (`KeyExchange.LawsHold`, under `Montgomery.OnMontgomery`). Theorems hold for any such modulus below 2^255;
  `Curve25519` has the real numbers.
* **SHA-512.** `Sha512`, from padding to digest. The round functions are a parameter of the specification, so that its
  recursion is proved once; `StandardFunctions` are those of the standard. `Fips180` compares all of it with the text of
  the standard.
* **AES-128.** `SBoxes`, `Gf256`, `MixColumns`, `Rounds`, `Aes` for the algebra, `PyAes` for the byte-array loops;
  `Fips197` compares tables, schedule, layers and rounds with the text of the standard.
* **Codecs.** `Envelope`, `Dm`, `Channel`, `Packet`, `Routes`; `Layouts` has every format byte by byte.
  SHA-256 is a function to 32 bytes about which nothing is assumed. The cipher is a parameter that must undo itself;
  `Envelope.AesIsSound` shows that AES does.
* **Delivery.** `Protocol` is the manager as a state machine over whole methods; `Retries`, `Pending`, `Acks`, `History`
  and `Progress` prove what each step keeps, `Outcomes`, `Echoes` and `Effects` what single events do to every message;
  `Runs` states the results for all runs, `Chats` what every chat holds, `LearnedPaths` over which route every packet
  goes, `Endings` that every message ends and how, `Lengths` which packets can be read; `Manager` is the class whose
  fields and methods do the same in place; `Tables` has the other bounded tables, each against an unbounded log.
* **End to end.** `EndToEnd` follows a message through codec and tables to the recipient's chat; `Delivery` ties the
  packets a run queues to those attempts and follows the ack back, bare or in a PATH return; `Replays` shows what the
  receiver's tables forget.

Texts are byte strings. Peers are 32-byte keys where the source uses their hexadecimal form. A message is known by a
number where the source uses the identity of its dictionary. The clock, the random byte of an ack, the radio and the
storage are parameters or results of the steps.

## What the proofs found

* `_learn_path` returns early when the path bytes are already stored, so a new length byte can be lost
  (`Routes.StaleLengthByte`); `Routes.LearnedRouteIsTaught` has the exact condition.
* A packet from a direct neighbour has an empty path. Its PATH return stores that, and `_route` takes it for no route at
  all, so messages to a neighbour are flooded for good (`Routes.PathComesBack`, which has both cases).
* `send_dm` and `send_group_text` do not look at the length of a text. From 172 bytes on (169 for a channel, less the
  nickname) every attempt is a packet that no parser accepts (`Lengths.LongDmIsQueued`, `Lengths.MessagePacketsParse`).
* A resend of a channel message overwrites the hash it waits for. The echo of an earlier attempt is then lost, and a
  message that repeaters did carry can end as failed (`Echoes.LateEchoIsLost`, and `Echoes.RunTooLate` for a whole run);
  `Echoes.EchoConfirms` has the exact condition.
* `_parse_path` checks neither the length byte nor that the path is all there (`Dm.BadPathsAreAccepted`);
  `Routes.TaughtRouteFits` has the exact condition under which a learned route is well formed.
* `_dup_message` does not move a key up when it is used again, so a resend can be shown twice although hardly anything
  came in between (`EndToEnd.ShownTwice`, and `Replays.RunShownTwice` for a whole run); `EndToEnd.ShownAgainIff` has the
  exact condition.
* `_checkvalid` does not require S to be below L, so every signature has a second form that is accepted too
  (`Ed25519.SignaturesHaveTwins`).
* Signing with a seed hashes its first 32 bytes while key derivation hashes all of it, so a longer seed can sign what
  its own public key refuses (`Ed25519.LongSeedFails`); `Ed25519.SignatureVerifiesIff` has the exact condition. The
  comment on `_publickey` asks for seeds of 32 bytes.
* An ack hash does not cover the recipient, so one text sent to two contacts in one second has one ack, and it settles
  the later message (`Delivery.SharedAck`); `Runs.AckSettlesExactly` has the exact condition.
* An ack that is registered again keeps its first place too, and is forgotten when that one is trimmed, however recent
  the second is; `Pending.RegisterKeepsIff` has the exact condition.
* A sent channel message is not entered in `_recent`. Once 64 other hashes were accepted, its echo is shown as a message
  that came in (`Replays.OwnEchoIsShownIff`, an exact condition), and `_note_echo` does not see it.
* Text is cut at its first NUL and a sender at its first ": "; the codec round trips hold exactly for texts and senders
  without them.

## Model

| member | source | states |
|---|---|---|
| `Edwards.AddStaysOnCurve` | org.fri3d.meshcore/meshcore_crypto.py:150-162 | For all points satisfying XY ≡ ZT and Y² − X² ≡ Z² + dT² mod Q, `_add` gives such a point again, for any modulus and any d |
| `Edwards.DoubleStaysOnCurve` | org.fri3d.meshcore/meshcore_crypto.py:136-147 | The same for `_double` |
| `Edwards.AdditionLaw` | org.fri3d.meshcore/meshcore_crypto.py:150-162 | `_add` satisfies the twisted-Edwards addition law for x and y, cross-multiplied so that no inverse is needed; for all inputs |
| `Edwards.AddSelfIsDouble` | org.fri3d.meshcore/meshcore_crypto.py:136-162 | On curve points `_add(P, P)` is −4 times `_double(P)` mod Q in each of the four coordinates, so both stand for the same point |
| `ScalarMult.DoubleAndAdd` | org.fri3d.meshcore/meshcore_crypto.py:168-181 | The loop that collects the bits of n from the low end and consumes them from the high end computes the recursive halving form `Times`, for every n |
| `ScalarMult.TimesReads` | org.fri3d.meshcore/meshcore_crypto.py:168-181 | Under any reading of points in a commutative group in which `_add` is addition, n times P stands for the n-fold sum of what P stands for; that `_double` doubles is derived, not assumed |
| `ScalarMult.TimesDistributes` | org.fri3d.meshcore/meshcore_crypto.py:168-181 | Under such a reading (m + n)P and mP + nP stand for the same element |
| `ScalarMult.TimesStaysOnCurve` | org.fri3d.meshcore/meshcore_crypto.py:168-181 | Every multiple of a curve point satisfies the curve equations; no group is assumed |
| `ScalarMult.DoubleReads` | org.fri3d.meshcore/meshcore_crypto.py:136-147 | `_double` is doubling in the group, because `_add(P, P)` is a rescaled `_double(P)` |
| `Fermat.LittleFermat` | org.fri3d.meshcore/meshcore_crypto.py:103-104 | For a prime modulus p, defined by its divisors, every a that is not a multiple of p has a^(p−1) ≡ 1; so `pow(x, Q - 2, Q)` inverts |
| `Points.RootOfSquare` | org.fri3d.meshcore/meshcore_crypto.py:111-116 | For a prime modulus of the form 8k + 5 and I² ≡ −1: if xx is a square, what the power (Q + 3)/8 and the correction by I leave squares to xx |
| `Points.RecoveredSquares` | org.fri3d.meshcore/meshcore_crypto.py:111-118 | So for every point (x, y) of the curve the x recovered from y squares to x²; that 1 + d·y² is invertible is proved |
| `Points.DecodeUndoesEncode` | org.fri3d.meshcore/meshcore_crypto.py:184-205 | Every reduced point of the curve is decoded from its 32 bytes again |
| `Points.DecodesIff` | org.fri3d.meshcore/meshcore_crypto.py:196-205 | `_decodepoint` accepts 32 bytes exactly when their low 255 bits are the y of some point of the curve |
| `Points.EncodeUndoesDecode` | org.fri3d.meshcore/meshcore_crypto.py:184-205 | For every 32-byte string that `_decodepoint` accepts, `_encodepoint` returns the same 32 bytes; y ≥ Q and x = 0 with the sign bit set are included |
| `Points.DecodedOnCurve` | org.fri3d.meshcore/meshcore_crypto.py:191-205 | A decoded point, made extended, satisfies both curve equations |
| `Ed25519.ClampIs` | org.fri3d.meshcore/meshcore_crypto.py:212-214 | The masked and or-ed scalar is 2^254 plus the multiple of 8 made of bits 3 to 253; it is below 2^255 and divisible by 8 |
| `Ed25519.ElementMeans` | org.fri3d.meshcore/meshcore_crypto.py:232-237 | `_bytes_to_element` accepts exactly the encodings of curve points whose L-fold sum is zero |
| `Ed25519.MultipleIsElement` | org.fri3d.meshcore/meshcore_crypto.py:224-237 | Every multiple of the base point, reduced by `% L` in `_base_mult`, survives encoding and the subgroup check with its group value unchanged |
| `Ed25519.VerifyMeans` | org.fri3d.meshcore/meshcore_crypto.py:281-290 | Verification accepts if and only if the signature has 64 bytes and the key 32, both encode group elements, and S·B = R + h·A for the unreduced S and h = SHA-512(R, A, M); everything else is refused |
| `Ed25519.PublicKeyIs` | org.fri3d.meshcore/meshcore_crypto.py:265-268 | The public key is a·B for the clamped first half a of the hashed seed or of the 64-byte key, spelled out in bits |
| `Ed25519.SignatureIs` | org.fri3d.meshcore/meshcore_crypto.py:271-278 | What signing computes (section 5.1.6 of RFC 8032): R is r·B for r = SHA-512(prefix, M), the prefix being the other half of the hash, and S is r + SHA-512(R, A, M)·a modulo L |
| `Ed25519.SignedScalar` | org.fri3d.meshcore/meshcore_crypto.py:271-278 | (r + h·a) reduced modulo L twice still gives r·B + h·(a·B) |
| `Ed25519.SignatureVerifies` | org.fri3d.meshcore/meshcore_crypto.py:265-290 | What `_signature` makes under a key, `_checkvalid` accepts under the public key `_publickey` makes of it, for every message (sections 5.1.6 and 5.1.7 of RFC 8032), if the scalars of signing and of key derivation agree; they do for every 64-byte key and every seed of at most 32 bytes. `Assumed` is a prime modulus and a reading of the points as a group; decompression is proved |
| `Ed25519.SignatureVerifiesIff` | org.fri3d.meshcore/meshcore_crypto.py:240-290 | For a base point of order L and seeds of every length: the signature is accepted if and only if h·a and h·a' are equal modulo L, a being the clamped scalar of `H(sk[:32])` that signs and a' that of `H(sk)` behind the public key |
| `Ed25519.LongSeedFails` | org.fri3d.meshcore/meshcore_crypto.py:240-290 | With a hash that tells a seed of 33 bytes from its first 32, whatever that seed signs is refused under its own public key |
| `Ed25519.SignThenVerify` | org.fri3d.meshcore/meshcore_crypto.py:326-338 | `sign` accepts exactly 64-byte keys, and `verify` accepts every signature it makes |
| `Ed25519.ScalarCountsModuloL` | org.fri3d.meshcore/meshcore_crypto.py:281-290 | Verification does not look at S beyond its residue modulo L: two signatures that differ only by a multiple of L in S are both accepted or both refused |
| `Ed25519.TwinIsAccepted` | org.fri3d.meshcore/meshcore_crypto.py:281-290 | Every 64-byte signature whose S + L still has 32 bytes has a second form, with S + L for S and so S outside [0, L), which is accepted if and only if the first is |
| `Ed25519.SignaturesHaveTwins` | org.fri3d.meshcore/meshcore_crypto.py:265-290 | So for every message signed, with any key or seed, there is a second, different signature with S at least L that verification accepts if and only if it accepts the first; section 5.1.7 of RFC 8032 would refuse it |
| `Curve25519.ConstantsAreRight` | org.fri3d.meshcore/meshcore_crypto.py:99-122 | The numbers used for Q, L, d, the root of −1 and the base point satisfy the equations they are computed from, and the base point is on the curve |
| `Curve25519.FieldIsRight` | org.fri3d.meshcore/meshcore_crypto.py:99-122 | So for the real numbers the only thing left to assume of the field is that Q is a prime |
| `X25519.StepDoubles` | org.fri3d.meshcore/meshcore_crypto.py:371-390 | One ladder step, reduced after every operation and using 121666·E + BB, doubles the first pair as section 5 of RFC 7748 does with 121665·E + AA |
| `X25519.StepAdds` | org.fri3d.meshcore/meshcore_crypto.py:371-390 | The same step performs the differential addition of section 5 of RFC 7748 on the two pairs |
| `X25519.DAddSymmetric` | org.fri3d.meshcore/meshcore_crypto.py:366-390 | Differential addition gives the same pair when its operands are swapped, which is why the swap may be deferred |
| `X25519.Ladder` | org.fri3d.meshcore/meshcore_crypto.py:361-394 | The 255-step loop with deferred swaps returns what the plain ladder with one branch per bit returns, for every scalar and every u |
| `X25519.ScalarIsClamp` | org.fri3d.meshcore/meshcore_crypto.py:353-359 | The masks of the key exchange give the scalar that signing uses, below 2^255 |
| `X25519.PlainReads` | org.fri3d.meshcore/meshcore_crypto.py:361-394 | Given the x-only doubling and differential-addition laws, after n steps from any u other than 0 the two pairs stand for [k]P and [k + 1]P, k being the top n bits |
| `X25519.SecretReads` | org.fri3d.meshcore/meshcore_crypto.py:341-399 | The derived secret is 32 bytes that spell, the lowest first, the x-coordinate of [e]P, for every key and every 32-byte public key that stands for P; u = 0, where the addition formula fails, included |
| `X25519.ComputeSharedSecret` | org.fri3d.meshcore/meshcore_crypto.py:341-399 | The whole function with its error for public keys that are not 32 bytes long, against its specification on the plain ladder |
| `X25519.SecretsAgree` | org.fri3d.meshcore/meshcore_crypto.py:341-399 | Both parties derive the same 32 bytes from each other's public key (section 6.1 of RFC 7748), given the x-only laws and that public keys stand for multiples of one base point of order L; that no clamped scalar brings it to zero is proved |
| `Montgomery.SumOfAffine` | org.fri3d.meshcore/meshcore_crypto.py:150-162 | For affine points of the curve, the sum that `_add` makes is again affine and on the curve, stands for the sum in the group, and has the x and y of the addition law with both denominators units |
| `Montgomery.NegatedIsInverse` | org.fri3d.meshcore/meshcore_crypto.py:150-162 | The point with x negated stands for the inverse; this is derived, not assumed |
| `Montgomery.SameY` | org.fri3d.meshcore/meshcore_crypto.py:184-189 | Points of one value have one y, because their encodings are equal |
| `KeyExchange.DoublingLaw` | org.fri3d.meshcore/meshcore_crypto.py:371-390 | If a pair (x, z) stands for a point, in that (x − z)/(x + z) is its y, the doubling of the ladder stands for twice the point; from the curve equation and 121666·d = −121665 |
| `KeyExchange.AddingLaw` | org.fri3d.meshcore/meshcore_crypto.py:371-390 | And differential addition stands for the sum, for any two points whose difference has x-coordinate u other than 0, including infinity and the points of small order |
| `KeyExchange.LawsHold` | org.fri3d.meshcore/meshcore_crypto.py:341-399 | So all the x-only laws that the ladder needs follow from the Edwards formulas and the group hypotheses of the signatures |
| `KeyExchange.PublicKeyStands` | org.fri3d.meshcore/meshcore_crypto.py:341-359 | The u computed from an encoded point stands for that point, unless it is zero |
| `KeyExchange.SecretOfPoint` | org.fri3d.meshcore/meshcore_crypto.py:341-399 | The secret shared with the holder of any point but zero is 32 bytes that spell u, where u·(1 − y) = 1 + y for the affine point (x, y) that is its multiple by the clamped scalar, or u = 0 if that is zero |
| `KeyExchange.KeysAgree` | org.fri3d.meshcore/meshcore_crypto.py:341-399 | Both parties derive the same 32 bytes from each other's public key (section 6.1 of RFC 7748), with no hypothesis about the ladder: only the group hypotheses of the signatures with their prime modulus, and a base point of order L |
| `Words.Rotr64Rotates` | org.fri3d.meshcore/meshcore_crypto.py:49-50 | `_rotr64`, with an unbounded left shift, an or and one mask, is the 64-bit rotation |
| `Words.BitOfRotr` | org.fri3d.meshcore/meshcore_crypto.py:49-50 | Bit i of the rotation by n is bit i + n of the word, counted cyclically (section 3.2 of FIPS 180-4) |
| `Words.ChooseChooses` | org.fri3d.meshcore/meshcore_crypto.py:71 | `(e & f) ^ (~e & g & mask)`: each bit of e picks the bit of f or of g |
| `Words.MajorityIsMajority` | org.fri3d.meshcore/meshcore_crypto.py:74 | `(a & b) ^ (a & c) ^ (b & c)`: each bit is the one at least two of the words have |
| `Sha512.PadLoop` | org.fri3d.meshcore/meshcore_crypto.py:58-63 | The padding loop terminates and leaves exactly message, 0x80, the fewest zero bytes that fit, and the 16-byte length |
| `Sha512.PaddedIsBlocks` | org.fri3d.meshcore/meshcore_crypto.py:58-63 | The padded length is a multiple of 128 and less than a block more than needed |
| `Sha512.PaddingIsInjective` | org.fri3d.meshcore/meshcore_crypto.py:58-63 | Two messages with the same padding are the same message (section 5.1.2 of FIPS 180-4) |
| `Sha512.ScheduleLoop` | org.fri3d.meshcore/meshcore_crypto.py:65-69 | The appended list w holds the recursive message schedule W at all 80 positions |
| `Sha512.MaskFive` | org.fri3d.meshcore/meshcore_crypto.py:72 | One mask over five summands equals addition modulo 2^64 after each of them |
| `Sha512.CompressLoop` | org.fri3d.meshcore/meshcore_crypto.py:64-80 | The loop that rotates eight variables computes 80 recursive rounds of section 6.4.2 of FIPS 180-4 and adds them to the hash value |
| `Sha512.HashLoop` | org.fri3d.meshcore/meshcore_crypto.py:53-81 | The whole function refines the recursive hash over blocks, for every message below 2^128 bits and any round functions and constants |
| `Sha512.Sha512Pure` | org.fri3d.meshcore/meshcore_crypto.py:53-81 | The same with the functions and constants of SHA-512 |
| `Sha512.DigestIsInjective` | org.fri3d.meshcore/meshcore_crypto.py:81 | The 64 bytes determine the eight words |
| `Fips180.BigSigmasAreStandard` | org.fri3d.meshcore/meshcore_crypto.py:70-73 | Each bit of Σ0 and Σ1 is the sum modulo 2 of three bits of the word, at the offsets of section 4.1.3 of FIPS 180-4 |
| `Fips180.SmallSigmasAreStandard` | org.fri3d.meshcore/meshcore_crypto.py:67-68 | Each bit of σ0 and σ1, the third a plain shift |
| `Fips180.PaddingIsStandard` | org.fri3d.meshcore/meshcore_crypto.py:58-63 | The padded message is the message, 0x80, zeros, and the bit length in 16 bytes, the highest first, and as short as whole blocks allow |
| `Fips180.ScheduleIsStandard` | org.fri3d.meshcore/meshcore_crypto.py:65-69 | Words 0 to 15 of the schedule are the big-endian words of the block, each later one one sum of four modulo 2^64 |
| `Fips180.RoundIsStandard` | org.fri3d.meshcore/meshcore_crypto.py:70-77 | A round makes two words new, each one sum modulo 2^64, and moves the other six on |
| `Fips180.HashIsStandard` | org.fri3d.meshcore/meshcore_crypto.py:53-81 | For every chain of hash values from the eight constants on, in which each block of the padded message takes one value to the next by eighty rounds and eight sums, the digest is the last value, word by word |
| `Fips180.PrimesAreFirst` | org.fri3d.meshcore/meshcore_crypto.py:24-57 | Eighty listed numbers are primes by their divisors, ascend, and leave out no prime up to the last |
| `Fips180.ConstantsAreRoots` | org.fri3d.meshcore/meshcore_crypto.py:24-57 | The 80 round constants are the first 64 fractional bits of the cube roots of these primes, the first hash value those of the square roots of the first eight: r³ ≤ p·2^192 < (r + 1)³ and r² ≤ p·2^128 < (r + 1)² |
| `SBoxes.SBoxInverts` | org.fri3d.meshcore/meshcore_channel.py:84-104 | The two substitution tables undo each other at all 256 bytes |
| `SBoxes.BuildInverse` | org.fri3d.meshcore/meshcore_channel.py:102-104 | The loop that fills `_INV_SBOX` gives the inverse table |
| `Gf256.Gmul` | org.fri3d.meshcore/meshcore_channel.py:108-118 | The eight-round shift-and-xor loop computes the product in GF(2^8), for all pairs of bytes |
| `Gf256.XtimeLinear` | org.fri3d.meshcore/meshcore_channel.py:114-116 | Doubling with its conditional reduction by 0x1B is xor-linear |
| `Gf256.MulLinear` | org.fri3d.meshcore/meshcore_channel.py:108-118 | `_gmul` distributes over xor in its first argument |
| `Gf256.MulOfXor` | org.fri3d.meshcore/meshcore_channel.py:108-118 | `_gmul` distributes over xor in its second argument: the polynomials add |
| `Gf256.MulMul` | org.fri3d.meshcore/meshcore_channel.py:108-118 | Multiplying twice is multiplying by the product of the two polynomials |
| `MixColumns.DotOfApply` | org.fri3d.meshcore/meshcore_channel.py:188-206 | A row of coefficients applied after a matrix of them is one row: the matrix product over GF(2^8) |
| `MixColumns.MixColumnInverts` | org.fri3d.meshcore/meshcore_channel.py:188-206 | `_inv_mix_columns` and `_mix_columns` undo each other on every column, both ways |
| `Rounds.RoundTrip` | org.fri3d.meshcore/meshcore_channel.py:145-169 | For any invertible layers, applying them in the reversed order of `_decrypt_block` undoes `_encrypt_block`, and the other way round |
| `Aes.ExpandKeyIsSchedule` | org.fri3d.meshcore/meshcore_channel.py:128-137 | Any list of 44 words that follows the key and the schedule rule is the expanded key; `Fips197.ScheduleIsStandard` has the rule in bytes |
| `Aes.LayersInvert` | org.fri3d.meshcore/meshcore_channel.py:140-206 | The four AES layers with any schedule are invertible: key addition by itself, the others by their inverses |
| `Aes.EcbRoundTrip` | org.fri3d.meshcore/meshcore_channel.py:209-219 | Both directions on all block-aligned data, block by block |
| `Aes.AesRoundTrip` | org.fri3d.meshcore/meshcore_channel.py:121-219 | For every 16-byte key and all block-aligned data, decryption undoes encryption and encryption undoes decryption (section 5 of FIPS 197) |
| `Aes.EncryptedBlock` | org.fri3d.meshcore/meshcore_channel.py:209-213 | Each 16 bytes of the ciphertext are the cipher of the same 16 bytes of the data |
| `Fips197.SBoxIsStandard` | org.fri3d.meshcore/meshcore_channel.py:84-101 | Every entry of the S-box is the affine map of the inverse in GF(2^8), the inverse shown by multiplying (section 5.1.1 of FIPS 197) |
| `Fips197.ScheduleIsStandard` | org.fri3d.meshcore/meshcore_channel.py:128-137 | Byte r of word i of the expanded key, for every key: byte 4i + r of the key for i < 4; then byte r of word i − 4, xor byte r of word i − 1, or for i divisible by 4 xor the S-box of byte (r + 1) mod 4 of word i − 1 and, for r = 0, the round constant |
| `Fips197.FirstWords` | org.fri3d.meshcore/meshcore_channel.py:128-137 | The first expanded words of appendix A.1 of FIPS 197: w4 = a0fafe17 and w5 = 88542cb1 for key 2b7e151628aed2a6abf7158809cf4f3c |
| `Fips197.LayersAreStandard` | org.fri3d.meshcore/meshcore_channel.py:140-177 | Row r, column c: where the bytes of a block go, substitution, the shift of row r by r columns, and key addition, each byte by byte |
| `Fips197.MixIsStandard` | org.fri3d.meshcore/meshcore_channel.py:188-196 | Each byte of a mixed column is twice itself, thrice the next and once each of the other two, cyclically |
| `Fips197.CipherIsStandard` | org.fri3d.meshcore/meshcore_channel.py:145-156 | The order of the layers: one key addition, nine full rounds, and one round that does not mix |
| `PyAes.RconIsPowers` | org.fri3d.meshcore/meshcore_channel.py:105 | The ten round constants are the successive powers of x |
| `PyAes.NewSchedule` | org.fri3d.meshcore/meshcore_channel.py:122-137 | Exactly 16-byte keys have a schedule |
| `PyAes.ExpandKeyLoop` | org.fri3d.meshcore/meshcore_channel.py:128-137 | The loop that appends words computes the expanded key |
| `PyAes.AddRoundKey` | org.fri3d.meshcore/meshcore_channel.py:140-143 | The in-place double loop adds round key rnd to the block |
| `PyAes.ShiftRowsLoop` | org.fri3d.meshcore/meshcore_channel.py:172-177 | The loop over rows and columns is ShiftRows on the block |
| `PyAes.InvShiftRowsLoop` | org.fri3d.meshcore/meshcore_channel.py:180-185 | The loop with the opposite offset is its inverse |
| `PyAes.MixColumnsLoop` | org.fri3d.meshcore/meshcore_channel.py:188-196 | The loop over the columns mixes each of the four columns, each product by the loop of `_gmul` |
| `PyAes.InvMixColumnsLoop` | org.fri3d.meshcore/meshcore_channel.py:199-206 | The same for the inverse matrix |
| `PyAes.EncryptBlock` | org.fri3d.meshcore/meshcore_channel.py:145-156 | The byte-array code computes the layered cipher on one block |
| `PyAes.DecryptBlock` | org.fri3d.meshcore/meshcore_channel.py:158-169 | The byte-array code in reversed order computes the inverse cipher on one block |
| `PyAes.EncryptEcbLoop` | org.fri3d.meshcore/meshcore_channel.py:209-213 | The block loop computes ECB encryption of all data |
| `PyAes.DecryptEcbLoop` | org.fri3d.meshcore/meshcore_channel.py:215-219 | The block loop computes ECB decryption of all data |
| `PyAes.EncryptAndDecrypt` | org.fri3d.meshcore/meshcore_channel.py:121-219 | From the key on: expanding it, running the encryption loops and then the decryption loops gives the data back for every 16-byte key, and other keys are refused |
| `Envelope.AesIsSound` | org.fri3d.meshcore/meshcore_channel.py:71-81 | AES as modelled here meets the one hypothesis the codecs make of their cipher |
| `Layouts.AesBlocks` | org.fri3d.meshcore/meshcore_channel.py:209-213 | The cipher of the envelope is AES-128 with the standard tables and schedule, block by block |
| `Layouts.HmacIsStandard` | org.fri3d.meshcore/meshcore_channel.py:47-54 | `hmac_sha256` byte by byte (section 2 of RFC 2104): the key, hashed if longer than 64 bytes, extended with zeros, xor-ed with 0x36 before the message and with 0x5C before the inner hash |
| `Layouts.EnvelopeIs` | org.fri3d.meshcore/meshcore_dm.py:67-73 | An envelope is the first two bytes of the HMAC, under the whole secret, of the ciphertext of the zero-padded plaintext under its first 16 bytes, and that ciphertext |
| `Layouts.OpensIff` | org.fri3d.meshcore/meshcore_dm.py:76-82 | An envelope opens if and only if its ciphertext is whole blocks and its two bytes are those of the HMAC |
| `Envelope.SealedOpens` | org.fri3d.meshcore/meshcore_dm.py:67-82 | What `encrypt_then_mac` makes, `mac_then_decrypt` opens to the zero-padded plaintext, for every plaintext but the empty one, which never opens |
| `Envelope.SealingIsInjective` | org.fri3d.meshcore/meshcore_dm.py:67-73 | Equal envelopes under one secret hold the same padded plaintext |
| `Envelope.FirstMatchIs` | org.fri3d.meshcore/meshcore_dm.py:119-128 | The search over candidates stops at the first whose hash byte and MAC match |
| `Layouts.OpenIs` | org.fri3d.meshcore/meshcore_dm.py:106-128 | A direct message or PATH return opens for the first contact whose key byte it names and whose secret gives its MAC, if it is addressed to our hash byte and holds whole blocks; otherwise for nobody |
| `Layouts.OtherChannelsDecline` | org.fri3d.meshcore/meshcore_channel.py:298-332 | A channel payload that is too short, no whole blocks, or on none of our channels is not decoded |
| `Layouts.PlaintextsRead` | org.fri3d.meshcore/meshcore_dm.py:95-104 | Which plaintexts are refused, and when a PATH return carries an ack |
| `Dm.U32RoundTrip` | org.fri3d.meshcore/meshcore_dm.py:59 | The little-endian timestamp field gives back the timestamp modulo 2^32 |
| `Layouts.DmIs` | org.fri3d.meshcore/meshcore_dm.py:50-92 | The bytes of a direct message: two hash bytes and the envelope of the little-endian time, 4·type + attempt mod 4, and the text; its ack is four bytes of SHA-256 over that plaintext and the sender's key |
| `Layouts.GroupIs` | org.fri3d.meshcore/meshcore_channel.py:352-364 | The bytes of a channel message: time, a zero, sender, ": " and text in the envelope; the hash byte is that of SHA-256 over the first 16 bytes of the secret if the other 16 are zero, and over all 32 otherwise |
| `Layouts.PathReturnIs` | org.fri3d.meshcore/meshcore_dm.py:140-147 | The bytes of a PATH return: length byte, path, 3, ack |
| `Layouts.AttemptIs` | org.fri3d.meshcore/meshcore_manager.py:1389-1411 | What the encoders get for an attempt: secret, key and hash byte of the contact, or channel and nickname with the time moved on by the attempt |
| `Layouts.AnswerIs` | org.fri3d.meshcore/meshcore_manager.py:1142-1186 | The answer to a direct message: its ack hash, a zero and a random byte, bare or in a PATH return |
| `Dm.FlagsAreMasks` | org.fri3d.meshcore/meshcore_dm.py:50-52 | The flags byte, attempt masked and type shifted and or-ed in, as arithmetic |
| `Dm.DmRoundTrip` | org.fri3d.meshcore/meshcore_dm.py:85-128 | `decode_dm` of `encode_dm`, at every padding length: key, timestamp modulo 2^32, attempt modulo 4 and type come back; the text does exactly when it holds no NUL, and then the receiver's ack hash is the one the sender waits for; provided no earlier candidate with that hash byte passes the MAC |
| `Dm.OthersDecline` | org.fri3d.meshcore/meshcore_dm.py:112-116 | A payload for another hash byte is not decoded |
| `Dm.AttemptsDiffer` | org.fri3d.meshcore/meshcore_dm.py:50-59 | Two attempts of one message are the same payload exactly when they agree modulo 4 |
| `Dm.PathRoundTrip` | org.fri3d.meshcore/meshcore_dm.py:140-188 | `decode_path` of `build_path_ack` gives back the path, its length byte and the first four ack bytes |
| `Dm.BareAckRoundTrip` | org.fri3d.meshcore/meshcore_dm.py:191-196 | The six ack bytes decode to the ack hash they carry |
| `Dm.PathAckFits` | org.fri3d.meshcore/meshcore_dm.py:140-147 | For a path of at most 64 bytes the PATH payload has at most 84 |
| `Dm.ParsedPathLength` | org.fri3d.meshcore/meshcore_dm.py:173-181 | The decoded path is as long as its length byte says exactly when the plaintext is long enough |
| `Dm.BadPathsAreAccepted` | org.fri3d.meshcore/meshcore_dm.py:173-188 | `_parse_path` accepts a reserved length byte (0xC1) and a path that is cut short (0x3F with 15 bytes) |
| `Channel.SeparatorOfBody` | org.fri3d.meshcore/meshcore_channel.py:341-345 | The first ": " of "sender: text" is the one put there exactly when the sender holds none |
| `Channel.GroupRoundTrip` | org.fri3d.meshcore/meshcore_channel.py:298-364 | `decode_group_text` of `encode_group_text`: channel and timestamp modulo 2^32 come back; sender and text do exactly when neither holds a NUL and the sender holds no ": "; provided no earlier channel with that hash byte passes the MAC |
| `Channel.ResendsDiffer` | org.fri3d.meshcore/meshcore_channel.py:352-364 | Resends whose timestamps differ modulo 2^32 are different payloads |
| `Packet.FieldsAreMasks` | org.fri3d.meshcore/meshcore_packet.py:109-143 | The masks and shifts of the accessors read the header and path bytes as digits |
| `Packet.FieldsOfHeader` | org.fri3d.meshcore/meshcore_packet.py:265-269 | The accessors undo `make_header` |
| `Packet.HeaderOfFields` | org.fri3d.meshcore/meshcore_packet.py:265-269 | `make_header` undoes the accessors, for every header byte |
| `Packet.PathLenRoundTrip` | org.fri3d.meshcore/meshcore_packet.py:272-274 | `encode_path_len` and the count and size accessors undo each other |
| `Packet.ParseInvertsToBytes` | org.fri3d.meshcore/meshcore_packet.py:152-212 | The parser accepts exactly the printed forms of well-formed packets: parse(data) = p if and only if p is well formed and to_bytes(p) = data; for all four route types |
| `Packet.RawLengthIsLength` | org.fri3d.meshcore/meshcore_packet.py:227-230 | `raw_length` is the number of bytes `to_bytes` writes, and at most 255 |
| `Layouts.WellFormedIs` | org.fri3d.meshcore/meshcore_packet.py:152-200 | What a packet may hold, in numbers: count times size at most 64 with size below 4, a payload of 1 to 184 bytes, codes on transport routes only |
| `Layouts.PacketIs` | org.fri3d.meshcore/meshcore_packet.py:202-212 | The bytes of a packet, for all four route types, with little-endian codes |
| `Layouts.ErrorsAre` | org.fri3d.meshcore/meshcore_packet.py:152-200 | Which of the seven errors a malformed packet gives: the first that applies |
| `Packet.ParseCursor` | org.fri3d.meshcore/meshcore_packet.py:152-200 | The cursor code returns what the specification does, with the same error in each malformed case |
| `Packet.ToBytesBuffer` | org.fri3d.meshcore/meshcore_packet.py:202-212 | The buffer that is appended to holds the printed packet |
| `Packet.HashInputIdentifies` | org.fri3d.meshcore/meshcore_packet.py:214-225 | Two packets are hashed over the same bytes exactly when type and payload agree, and for traces the path byte |
| `Layouts.HashedBytes` | org.fri3d.meshcore/meshcore_packet.py:214-225 | The bytes a packet is hashed over: type and payload, for a trace also the path byte in two bytes |
| `Layouts.EchoHashIs` | org.fri3d.meshcore/meshcore_packet.py:214-225 | The hash a channel message waits for is the packet hash of every copy of it, whatever route, path and codes it carries |
| `Layouts.AnswerHashIs` | org.fri3d.meshcore/meshcore_packet.py:214-225 | The hash remembered of an answer is the packet hash of every copy of that answer |
| `Routes.PathComesBack` | org.fri3d.meshcore/meshcore_manager.py:1166-1248 | A path parsed off any packet, sent back by `build_path_ack` in at most 84 bytes, decoded, learned and routed on, gives a packet that parses back with the identical path: DIRECT if and only if that path has a hop, for the path of a direct neighbour is empty and still means FLOOD; the length byte is the one that arrived unless the same path bytes were already stored under another |
| `Routes.LearnedRouteIsTaught` | org.fri3d.meshcore/meshcore_manager.py:1210-1248 | After `_learn_path` the route in use is the taught one if and only if the taught path is empty, its bytes were new, or the stored length byte is the same |
| `Routes.StaleLengthByte` | org.fri3d.meshcore/meshcore_manager.py:1222-1225 | A case where it is not: the early return on equal path bytes keeps the old length byte |
| `Routes.TaughtRouteFits` | org.fri3d.meshcore/meshcore_manager.py:1210-1229 | For every decoded plaintext and every contact: a PATH return leaves a well-formed route if and only if its path is empty, or was stored already in a well-formed route, or its length byte is valid and the plaintext as long as that byte says |
| `Routes.LearningKeepsRoutes` | org.fri3d.meshcore/meshcore_manager.py:1210-1240 | Learning from a well-formed PATH return, and forgetting, keep count times size equal to the stored length |
| `Routes.RoutedPacketParses` | org.fri3d.meshcore/meshcore_manager.py:1242-1248 | Any packet on a well-formed route, direct or flooded, parses back to itself |
| `LearnedPaths.PathIsLearned` | org.fri3d.meshcore/meshcore_manager.py:1210-1229 | A PATH return, as a step: the contact holds the path, with its length byte if the path is new, and nothing else in the state changes |
| `LearnedPaths.StepRoute` | org.fri3d.meshcore/meshcore_manager.py:1210-1411 | Every step, for every peer: what becomes of its path, and over which route the packets that the step queues for it go; a tick that finds a direct attempt due forgets the path, and only then may a packet be flooded instead |
| `LearnedPaths.ContactFollows` | org.fri3d.meshcore/meshcore_manager.py:1210-1240 | After any run a contact's path is the last one taught since it was added, unless a direct attempt has timed out since |
| `LearnedPaths.TaughtRouteIsUsed` | org.fri3d.meshcore/meshcore_manager.py:1210-1411 | Once a contact has taught a new path, every packet queued for it in any run, first attempt or resend, is DIRECT over exactly that path and length byte, until a direct attempt to it times out, it is removed, or it teaches another path |
| `LearnedPaths.NextDmGoesDirect` | org.fri3d.meshcore/meshcore_manager.py:1352-1411 | So the next DM to it is queued at once over that path |
| `LearnedPaths.TimeoutFloods` | org.fri3d.meshcore/meshcore_manager.py:1231-1304 | After a direct attempt timed out the contact is flooded |
| `Tables.SeenTable.Remember` | org.fri3d.meshcore/meshcore_manager.py:944-952 | A hash is accepted exactly when it is not among the last 64 accepted; list and set stay equal |
| `Tables.RecentTable.DupMessage` | org.fri3d.meshcore/meshcore_manager.py:923-942 | The table holds the last 64 keys entered, each with the time noted last; a message is a resend exactly when its key is among them and its time within the window |
| `Tables.NodeTable.HandleAdvert` | org.fri3d.meshcore/meshcore_manager.py:954-977 | After every advert the table is exactly the 100 companions heard last, or all of them, numbered by when they were last heard |
| `Tables.OldestDropped` | org.fri3d.meshcore/meshcore_manager.py:995-1002 | Dropping the smallest `seq` drops the companion heard longest ago and never the newest |
| `Tables.WindowMoves` | org.fri3d.meshcore/meshcore_manager.py:948-951 | Appending and dropping the oldest moves the window over the unbounded log on by one |
| `Pending.RegisterBounded` | org.fri3d.meshcore/meshcore_manager.py:1329-1333 | Registering keeps the order within 32 entries and covering the table |
| `Pending.RegisterComplete` | org.fri3d.meshcore/meshcore_manager.py:1329-1333 | Of the last 32 registrations, registering loses no ack that no other attempt registered, but those of delivered messages |
| `Pending.RegisterKeepsIff` | org.fri3d.meshcore/meshcore_manager.py:1329-1333 | Registering drops an entry if and only if the oldest of 32 places is one of its ack's; that may be an earlier place of an ack that was registered again later |
| `Pending.TakeComplete` | org.fri3d.meshcore/meshcore_manager.py:1335-1343 | Taking an ack out loses none of these but what belongs to the message it settles |
| `Pending.DropKeeps` | org.fri3d.meshcore/meshcore_manager.py:1321-1327 | Dropping the other acks of a delivered message, with their stale places left in the order, keeps the table bounded and complete |
| `Runs.RetrySafety` | org.fri3d.meshcore/meshcore_manager.py:1257-1411 | After any run: at most one record per message; a message's attempts were queued once each, in order, at most four for a DM and three for a channel message, and never direct twice in a row; a record's message is unsettled and has had exactly attempts 0 to `attempt` queued |
| `Runs.NothingAfterSettling` | org.fri3d.meshcore/meshcore_manager.py:1257-1350 | Once delivered, confirmed or failed, a message stays so through every run and nothing is queued for it again |
| `Runs.SentOnceWhileAlone` | org.fri3d.meshcore/meshcore_manager.py:1269-1282 | While no repeater has been heard a channel message is queued exactly once |
| `Runs.AckSettlesExactly` | org.fri3d.meshcore/meshcore_manager.py:1329-1350 | After any run, an ack settles an undelivered DM, it and no other, if and only if that ack is still pending and the last attempt that registered it was one of this message |
| `Runs.LateAckSettles` | org.fri3d.meshcore/meshcore_manager.py:1329-1350 | In terms of the log of registrations alone: that is so for any of the last 32 attempts registered, also of a message already marked failed, if no other attempt registered that very ack |
| `Runs.AckSettlesARegistrant` | org.fri3d.meshcore/meshcore_manager.py:1335-1350 | Whatever ack arrives, it settles the message of the attempt that registered it last, or nothing if it is not pending |
| `Runs.AttemptsAreRegistered` | org.fri3d.meshcore/meshcore_manager.py:1389-1411 | Every attempt ever queued registered the ack expected for it |
| `Runs.PendingIsBounded` | org.fri3d.meshcore/meshcore_manager.py:1329-1333 | After any run `_pending_order` has at most 32 entries and covers `_pending_acks` |
| `Runs.StorageIsCurrent` | org.fri3d.meshcore/meshcore_manager.py:1521-1556 | After any run, across adding, removing and re-adding contacts: a contact with nothing unsaved is stored as in memory on text, time, delivered and failed; without a worker nothing is unsaved; a flush leaves nothing unsaved |
| `Chats.ContactsFollow` | org.fri3d.meshcore/meshcore_manager.py:1440-1475 | Who is a contact after any run: a 32-byte key comes when it is added and goes when it is removed, and nothing else changes that |
| `Chats.ChatFollows` | org.fri3d.meshcore/meshcore_manager.py:1065-1475 | After any run, the list in memory of every peer reads, line by line with direction, time and text, as the last 200 lines, in order, of its history as loaded and all that was then sent to and received from it while it was a contact; removing it forgets everything |
| `Chats.StoredChat` | org.fri3d.meshcore/meshcore_manager.py:1521-1556 | The same of what is stored for a contact, after a flush, and at any time while no worker runs |
| `Chats.WorkerWrites` | org.fri3d.meshcore/meshcore_manager.py:1521-1556 | A running worker is left to write: until a flush or a stop, storage only loses removed contacts |
| `Runs.TrafficIsBounded` | org.fri3d.meshcore/meshcore_manager.py:1269-1319 | Any run queues at most four packets for each DM sent and three for each channel message |
| `Runs.QueuedPacketsParse` | org.fri3d.meshcore/meshcore_manager.py:1389-1411 | If contacts return well-formed paths, every packet a run queues parses back to itself on its route, or is refused for the length of its payload alone |
| `Lengths.DmFits` | org.fri3d.meshcore/meshcore_dm.py:50-82 | A direct message fits the 184 bytes of a packet payload if and only if its text has at most 171 |
| `Lengths.GroupFits` | org.fri3d.meshcore/meshcore_channel.py:352-364 | A channel message fits if and only if nickname and text have at most 169 bytes together |
| `Lengths.MessagePacketsParse` | org.fri3d.meshcore/meshcore_manager.py:1352-1411 | With the real codecs and well-formed paths: every packet a run queues, for any attempt on any route, comes from the text of a send event and parses back to itself if and only if that text fits; otherwise it is refused as too long |
| `Lengths.FittingTextsParse` | org.fri3d.meshcore/meshcore_manager.py:1352-1411 | If every text a run is given fits, every packet it ever queues parses back to itself |
| `Lengths.LongDmIsQueued` | org.fri3d.meshcore/meshcore_manager.py:1352-1387 | `send_dm` takes any text of 172 bytes or more without an error, and the packet it queues is one the parser refuses |
| `Runs.SendCarriesAttempt` | org.fri3d.meshcore/meshcore_manager.py:1389-1411 | The j-th packet queued for a message carries the codec's payload for attempt j |
| `Effects.DmIsSent` | org.fri3d.meshcore/meshcore_manager.py:1352-1411 | A sent DM, in full: the message, the one packet with attempt 0 on the route of the contact, the record and its ack; or no change, without text or contact |
| `Effects.GroupIsSent` | org.fri3d.meshcore/meshcore_manager.py:1635-1671 | A sent channel message, in full: flooded, waiting for the hash of its packet; or no change, without text |
| `Effects.RefusedFor` | org.fri3d.meshcore/meshcore_manager.py:1352-1366 | Which of the four errors `send_dm` gives: the first that applies |
| `Effects.AckSettlesOnce` | org.fri3d.meshcore/meshcore_manager.py:1321-1350 | In any run, an ack marks the message that it is pending for, once: that ack is ignored from then on, and so are the acks of all other attempts of a message that was still waited for |
| `Effects.HeardFollows` | org.fri3d.meshcore/meshcore_manager.py:1257-1304 | Resends of channel messages begin when a repeater was heard at any time before, and with nothing else |
| `Runs.RunInv` | org.fri3d.meshcore/meshcore_manager.py:1257-1411 | The invariant behind these results holds after every run, and every message only moves on |
| `Outcomes.TickDoes` | org.fri3d.meshcore/meshcore_manager.py:1269-1319 | A whole tick, for every record at once: one that is not due is left alone; a due DM is resent or, after its fourth send, failed; a due channel message is dropped unmarked while no repeater was heard, and otherwise resent or, after its third send, failed; with the exact change of message, record and queue in each case |
| `Outcomes.TickLeavesRetired` | org.fri3d.meshcore/meshcore_manager.py:1269-1304 | A tick changes nothing about a message without a record |
| `Outcomes.EchoDoes` | org.fri3d.meshcore/meshcore_manager.py:1257-1267 | In any state, an echo confirms the message of the first channel record with its hash, ends its resends and touches no other message |
| `Outcomes.NewMessage` | org.fri3d.meshcore/meshcore_manager.py:1352-1387 | Every message that appears in memory was sent by that very step and is waited for, or came in |
| `Echoes.EchoConfirms` | org.fri3d.meshcore/meshcore_manager.py:1257-1267 | `_note_echo`, once it is called, after any run: the echo confirms a message if and only if it is the hash of the last packet queued for it and its record is the first such; every other message is left alone, also when two messages have one hash |
| `Echoes.LateEchoIsLost` | org.fri3d.meshcore/meshcore_manager.py:1257-1319 | An echo of an earlier packet of a message, once a later one went out, changes nothing, and the message is marked failed when its last attempt times out |
| `Echoes.RunTooLate` | org.fri3d.meshcore/meshcore_manager.py:1257-1319 | The whole run: a channel message is sent, a repeater is heard, two timeouts go by, the echo of the first packet comes, and the next timeout marks the message failed |
| `Replays.OwnEchoIsShownIff` | org.fri3d.meshcore/meshcore_manager.py:883-952 | After any arrivals, the echo of a packet of our own is taken for a new message and shown if and only if at least 64 hashes were accepted since its own was remembered; until then it is dropped, and `_note_echo` sees it |
| `Replays.OwnGroupEchoIsShownIff` | org.fri3d.meshcore/meshcore_manager.py:1004-1028 | Through the codec: what is then shown is our own text under our own nickname |
| `Replays.RunShownTwice` | org.fri3d.meshcore/meshcore_manager.py:923-952 | A run of 67 packets, from a receiver that has heard nothing, in which two attempts of one message are both shown |
| `Progress.TickDrops` | org.fri3d.meshcore/meshcore_manager.py:1269-1304 | The sum of the sends left drops by at least one for each due record |
| `Progress.StepBudget` | org.fri3d.meshcore/meshcore_manager.py:1269-1411 | Only a new send raises that sum or the number of packets that may still be queued |
| `Endings.RetiredAfterTimeouts` | org.fri3d.meshcore/meshcore_manager.py:1269-1319 | For every message and every run, whatever else happens in between: once a message has timed out as often as it may be sent (four times for a DM, three for a channel message), nothing waits for it any more |
| `Endings.SentMessagesEnd` | org.fri3d.meshcore/meshcore_manager.py:1257-1350 | A sent message that nothing waits for was delivered, confirmed or failed, or it is a channel message that a timeout dropped while no repeater was heard |
| `Endings.EveryMessageEnds` | org.fri3d.meshcore/meshcore_manager.py:1257-1411 | Both together, for any message of any run from start-up: after that many timeouts it has ended in one of these ways |
| `Retries.TickAtSafe` | org.fri3d.meshcore/meshcore_manager.py:1272-1304 | Every branch for a due record keeps retry safety; a direct attempt that was not acked is followed by a flooded one |
| `Retries.StepSafe` | org.fri3d.meshcore/meshcore_manager.py:1257-1411 | Every step keeps retry safety and moves messages only onwards |
| `Acks.AckAcks` | org.fri3d.meshcore/meshcore_manager.py:1335-1350 | `_mark_delivered` keeps the pending table bounded, sound, and complete for the acks that one attempt alone registered |
| `Acks.StepAcks` | org.fri3d.meshcore/meshcore_manager.py:1257-1411 | Every step keeps the pending table bounded, sound and complete in this sense |
| `History.SavingRestores` | org.fri3d.meshcore/meshcore_manager.py:1521-1546 | Saving makes up for whatever changed in one contact's history |
| `History.StepHistory` | org.fri3d.meshcore/meshcore_manager.py:1413-1556 | Every step keeps storage current for all contacts that are not dirty |
| `Manager.MeshCoreManager.RegisterPending` | org.fri3d.meshcore/meshcore_manager.py:1329-1333 | The field updates and the trimming loop do to the two tables what the specification does |
| `Manager.MeshCoreManager.FlushDirtyHistory` | org.fri3d.meshcore/meshcore_manager.py:1531-1546 | The loop over the dirty contacts writes exactly the current history of each |
| `Manager.MeshCoreManager.RetryTick` | org.fri3d.meshcore/meshcore_manager.py:1269-1304 | The loop over a copy of the list treats every record once, in order |
| `Manager.MeshCoreManager.CancelRetry` | org.fri3d.meshcore/meshcore_manager.py:1321-1327 | The search and the loop over the acks remove one record and all its pending acks |
| `Manager.MeshCoreManager.NoteEcho` | org.fri3d.meshcore/meshcore_manager.py:1257-1267 | The search confirms and removes the first channel record with that hash |
| `Manager.MeshCoreManager.SendDm` | org.fri3d.meshcore/meshcore_manager.py:1352-1387 | The whole new state of `send_dm`; which of its four errors is returned, for the first check that fails, and that nothing changes then |
| `Manager.MeshCoreManager.MarkDelivered` | org.fri3d.meshcore/meshcore_manager.py:1335-1350 | The whole new state of `_mark_delivered` |
| `Manager.MeshCoreManager.Handle` | org.fri3d.meshcore/meshcore_manager.py:1257-1671 | Each method leaves the fields as the state machine says and the invariant in place |
| `EndToEnd.Inbox.Ingest` | org.fri3d.meshcore/meshcore_manager.py:883-921 | Receiving on the two bounded tables, with each ack packet that goes out logged and remembered, does what the specification on unbounded logs does |
| `EndToEnd.ShownOnce` | org.fri3d.meshcore/meshcore_manager.py:923-952 | Whichever attempts of a message arrive, in any order, number and company: the chat gains one entry if any copy is accepted, and the ack packets queued for it are exactly the answers of the accepted copies, in order |
| `EndToEnd.DmShownOnce` | org.fri3d.meshcore/meshcore_manager.py:1065-1186 | The same from the sender's text, key and time through codec and tables: one entry with that text, and per accepted copy one ack packet, bare or a PATH return, with the ack hash that the sender waits for |
| `EndToEnd.GroupShownOnce` | org.fri3d.meshcore/meshcore_manager.py:1004-1028 | The same for a channel message and its shifted timestamps |
| `EndToEnd.ShownAgainIff` | org.fri3d.meshcore/meshcore_manager.py:923-942 | After a message was shown, and any run of arrivals since, a further attempt is shown again if and only if at least 64 keys were entered after this one last was |
| `EndToEnd.SecondIsShownIff` | org.fri3d.meshcore/meshcore_manager.py:923-942 | Of two accepted copies of one text that was not in the table both are shown, each with its own time, unless it is a DM of the very same time, or a channel message at most three apart |
| `EndToEnd.ShownTwice` | org.fri3d.meshcore/meshcore_manager.py:932-942 | A key keeps its place when used again: with the same text shown long ago and its key next to fall out, one other new message between two attempts makes both be shown |
| `EndToEnd.FirstCopyIsAccepted` | org.fri3d.meshcore/meshcore_manager.py:944-952 | The first copy of a packet not lately seen passes `_remember` |
| `EndToEnd.DmAttemptsHashApart` | org.fri3d.meshcore/meshcore_manager.py:1389-1411 | The packets of two attempts of a DM are hashed over different bytes |
| `EndToEnd.GroupAttemptsHashApart` | org.fri3d.meshcore/meshcore_manager.py:1655-1671 | The packets of two attempts of a channel message are hashed over different bytes, whatever nickname, text and time |
| `Delivery.QueuedIsAttempt` | org.fri3d.meshcore/meshcore_manager.py:1389-1411 | With the real codecs, every packet a run queues is one of its message's four or three attempts |
| `Delivery.AckComesHome` | org.fri3d.meshcore/meshcore_manager.py:1065-1165 | There and back: the packet of any attempt, decoded by its recipient, is answered by a bare ACK that, after any run of the sender, settles exactly this message if and only if it is still pending and no attempt of another message registered the same ack later; it is while fewer than 32 attempts were registered since and no other registered that ack |
| `Delivery.PathAckComesHome` | org.fri3d.meshcore/meshcore_manager.py:1065-1208 | The same with the PATH return that answers a flooded attempt: built by the recipient, decoded by the sender; then the sender's contact holds the path that the packet took, with its length byte if the path is new, every other contact is unchanged, and the ack in it settles this message under the same exact condition |
| `Delivery.SharedAck` | org.fri3d.meshcore/meshcore_manager.py:1321-1350 | One text sent to two contacts in one second has one ack; when it arrives, from whichever of them, it settles the message sent later and not the other |
| `Delivery.QueuedPayloadsDiffer` | org.fri3d.meshcore/meshcore_manager.py:1389-1411 | No two packets queued for one message, to a contact or to a channel, carry the same payload |

## Left out

- SharedPreferences, SD backup and the file formats they use: storage is a map from contacts to saved histories, and writes succeed.
- The stored contact list: `_save_contacts` and `_load_contacts` are not part of this model; a run starts from given contacts and histories.
- UTF-8 decoding and its hexadecimal fallback: text stays bytes.
- `ucryptolib` and `hashlib`: the pure AES is modelled, SHA-256 is an uninterpreted function, and nothing is claimed about collisions.
- Curve25519.ConstantsAreRight: gives equations that the numbers satisfy, not that the modular powers of the source evaluate to them; `pow` is not evaluated at module level.
- Curve25519.FieldIsRight: that Q is a prime stays a hypothesis, and so does that the points of the curve are a group.
- EndToEnd.SecondIsShownIff: is about a text that was not in the table before; what a text already there does is in `EndToEnd.ShownAgainIff` and `EndToEnd.ShownTwice`.
- `meshcore_advert.py`: an advert enters as a key and a type. The signal strength and the name it carries are not modelled.
- Radio bring-up, polling, time on air, transmission and the watchdog: a packet counts as sent when it is queued.
- Threads: each method is one atomic step. `send_dm` queues before it appends to `_retries`, so the retry results are about whole methods.
- Notifications, unread counters, the packet log and the channels' in-memory lists.
- Channel management, and the error of `send_group_text` for a channel that was not joined.
- Manager.MeshCoreManager.SendDm: whether there is an identity and a shared secret enters as two flags, the text comes already stripped, and encoding does not raise.
- The nickname: `_tx_group` reads it anew for each attempt, while a `Delivery.Node` keeps its own.
- Which of its two forms an ack takes: `_send_ack` picks a PATH return or a bare ACK; `Delivery.AckComesHome` and `Delivery.PathAckComesHome` cover one each.
- PyAes.EncryptAndDecrypt: like the two loops it calls, it is for block-aligned data.
- `generate_keypair`: drawing seeds until the first key byte is not reserved.
- `list.remove` compares records by value; the model removes the record itself. Two records are equal only if two identical messages to one peer were queued in the same millisecond.
- `time.ticks_ms` wraps; the model's clock does not.
- Sha512.HashLoop: messages of 2^128 bits or more, for which the standard defines nothing and the source raises, are not admitted.
- PyAes.EncryptEcbLoop: data that is not block-aligned, for which the source raises an index error, is not admitted; callers always pad.
- Dm.DmRoundTrip: text types of 64 and above, for which packing the flags byte raises, are not admitted.
- EndToEnd.DmShownOnce: the packet hash of the arriving attempt must be new among the last 64; that eight bytes of SHA-256 differ is a hypothesis, only the hashed bytes are proved different.
- Manager.MeshCoreManager.Handle: the checks that come before a step, such as decoding an incoming payload, are in `Dm`, `Channel` and `EndToEnd`; the step starts from their result.
