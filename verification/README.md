# A verified model of the file transfer system

The repository is a file transfer client in C++ with its copy of Crypto++, and a server in Python. This
project models the parts whose correctness is not visible in any single function, and proves what they are
for. `dafny verify dfyconfig.toml` checks all of it.

Three layers:

- **Algorithms that must equal something simple.** Scalar multiplication with sliding windows and buckets
  (`SlidingWindow`), with joint windows of two bases (`Cascade`) and by dividing exponents (`GeneralCascade`),
  over any abelian group (`AbelianGroup`); the extended Euclidean algorithm (`Inverse`); the POSIX checksum of
  client and server with its table (`Crc`, `CrcTable`); Adler-32 with delayed reduction (`Adler`); the
  Blum-Blum-Shub generator with random access (`BlumBlumShubGenerator`, `ModularPowers`, `Primes`); ChaCha in batches
  (`ChaCha`, `Words32`).
- **Streams and codecs.** CMAC (`Cmac`, `CmacSubkeys`) and CCM (`Ccm`, `CcmEncoding`) over an arbitrary block cipher (`BlockCiphers`); the
  base-N encoder and decoder, the grouper and Base64 (`BaseText`, `BaseN`, `BinaryDigits`); BER elements and their
  re-encoding (`Asn`).
- **The protocol.** Framing (`Framing`, `LittleEndian`); the server's handlers as sequences of single file
  operations and SQL statements (`Server`), as code on a database and a file system (`Handlers`), and as threads
  that share both (`Isolation`); one file transfer from the first packet to the verdict, with packets altered on
  their way (`Transfer`, `Retries`); the receive loop with the codes of requests, from the wire to the handlers
  (`Connection`); what each request comes to (`Outcomes`) and how replies are read (`Replies`); and transfers among
  other clients' threads (`Service`).

What a specification function means is stated a second time without it: by a law that fixes its values, by what a
reader of the octets gets back, or by the examples of the RFC in question (`ChaChaExample`, `CmacSubkeys`,
`CcmEncoding`, `AsnExamples`, `BaseExamples`, `Outcomes`, `Replies`).

`Integers.dfy` and `Octets.dfy` hold arithmetic, optional values, octets and bit strings that several of these
need.

Code that changes state in the source is a class or a method with loops here, proved against a function or a
predicate on values; the lemmas then say what that function means. Block ciphers, public-key encryption and
AES-CBC are arbitrary functions; where a result needs that decrypting undoes encrypting, it says so. What is
random, read from a clock or delivered by the network is a parameter or an arbitrary choice.

Where the code and what is said about it differ, the model follows the code:

- README.md of the repository promises up to three attempts; the code makes a fourth, exactly if the first three
  were answered with a wrong checksum (`MAX_RETRIES` in client/RequestManager.h, line 10; `Retries.FourthAttempt`,
  `Retries.FourthAttemptHappens`).
- `QuotientRing::MultiplicativeInverse` finds no inverse of an element from the modulus up
  (`Inverse.FiveModuloThree`); `Inverse.MultiplicativeInverse` has the exact condition.
- The comment on `BlumBlumShub` asks for primes congruent to 3 modulo 4; seeking also needs them to be distinct
  (`BlumBlumShubGenerator.JumpIs`, `BlumBlumShubGenerator.EqualFactorsFail`).
- The output of `DERReencode` is DER throughout only if what it copies was DER already (`Asn.DistinguishedForm`,
  `Asn.DefiniteContentIsKept`).
- The table of files does not take paths of more than 255 characters, so that files with names of more than 214
  octets cannot be sent, although the protocol has room for 254 (`Transfer.AcceptableNames`, `Transfer.LongNameFails`).
- A call of CCM's `ProcessData` that is refused for its state or an incomplete header counts the octets it did not
  take, and then the complete message gets no tag (`Ccm.CcmBase.ProcessData`, `Ccm.CompleteUnlessLost`,
  `Ccm.TooEarly`).
- `get_file_payload` and the handlers of 900 and 902 let an exception end the connection when a name is not ASCII,
  where the other handlers answer with an error.
- The update of the Verified column hits every row of the client with that name, also those of earlier transfers
  of the same file, which by then has been overwritten (`Handlers.Database.UpdateFileVerified`).

## Model

| member | source | states |
|---|---|---|
| `SlidingWindow.WindowSlider.constructor` | client/cryptopp/algebra.cpp:208-221 | The whole exponent is still unread; without a given width the window grows with the length of the exponent. |
| `SlidingWindow.WindowSlider.SkipZeroBits` | client/cryptopp/algebra.cpp:225-237 | Finds where the next one bit is, and reports that there is none exactly when no bits are left; nothing but zeros is skipped. |
| `SlidingWindow.WindowSlider.FindNextWindow` | client/cryptopp/algebra.cpp:223-247 | The new odd signed digit plus the unread part, at its bit position, is the old unread part, also when a negative digit carries upwards; the slider finishes exactly when nothing was unread. |
| `SlidingWindow.Visit` | client/cryptopp/algebra.cpp:283-292 | One turn of one exponent keeps the account: bucket contents weighted with 2k+1, plus digit and unread part, make up the exponent, and the slider moves only if less is left. |
| `SlidingWindow.Sweep` | client/cryptopp/algebra.cpp:281-294 | One pass over all exponents keeps every account and reports whether any slider is unfinished. |
| `SlidingWindow.CollectWindows` | client/cryptopp/algebra.cpp:276-301 | The loop over bit positions ends, with each exponent spread over its buckets. |
| `SlidingWindow.SuffixSumsAreWeighted` | client/cryptopp/algebra.cpp:307-312 | Adding up running suffix sums counts bucket k exactly 2k+1 times. |
| `SlidingWindow.SumBuckets` | client/cryptopp/algebra.cpp:303-313 | The closing loop returns the sum of (2k+1)·bucket[k]. |
| `SlidingWindow.SimultaneousMultiply` | client/cryptopp/algebra.cpp:255-314 | For every abelian group, base and list of exponents, with or without fast negation, each result slot is exponent·base. |
| `SlidingWindow.ScalarMultiply` | client/cryptopp/algebra.cpp:90-95 | exponent·base for one exponent, through the simultaneous form. |
| `AbelianGroup.IntegersAreAGroup` | client/cryptopp/algebra.cpp:90-95 | The integers are such a group, and multiples in it are products. |
| `Cascade.FillFirstRow` | client/cryptopp/algebra.cpp:118-119 | The odd columns of row 0 hold odd multiples of x. |
| `Cascade.FillOddColumns` | client/cryptopp/algebra.cpp:120-122 | Every slot with an odd column holds column·x + row·y. |
| `Cascade.FillFirstColumn` | client/cryptopp/algebra.cpp:124-125 | Column 0 holds row·y in every odd row; the odd columns stay as they are. |
| `Cascade.FillOddRows` | client/cryptopp/algebra.cpp:126-128 | Every slot with an odd row holds column·x + row·y. |
| `Cascade.FillTable` | client/cryptopp/algebra.cpp:103-129 | For each window width, all slots with an odd row or column are filled with the right element. |
| `Cascade.Halve` | client/cryptopp/algebra.cpp:144-150 | Common factors of two are divided out of both windows; their number never exceeds squaresBefore, and afterwards one window is odd unless both are zero. |
| `Cascade.Lookup` | client/cryptopp/algebra.cpp:151-163 | Every slot that is read is inside the table and was filled with the element for that pair of windows. |
| `Cascade.ShiftIn` | client/cryptopp/algebra.cpp:158-165 | Doubling, adding the odd part of a window and doubling again shifts the whole window in. |
| `Cascade.Flush` | client/cryptopp/algebra.cpp:140-167 | One window keeps the invariant that the result stands for the digits read so far of both exponents. |
| `Cascade.ReadWindows` | client/cryptopp/algebra.cpp:131-169 | The loop over digits returns e1·x + e2·y from a complete table. |
| `Cascade.CascadeScalarMultiply` | client/cryptopp/algebra.cpp:97-170 | Returns e1·x + e2·y for all non-negative exponents, zero ones included. |
| `GeneralCascade.DivideKeepsTotal` | client/cryptopp/algebra.cpp:188-196 | Dividing the largest exponent by the next largest and moving the quotient to the other base keeps the sum of exponent·base, and makes the sum of the exponents smaller. |
| `GeneralCascade.TotalRearranged` | client/cryptopp/algebra.cpp:183-184 | The sum does not depend on the order the heap leaves the terms in. |
| `GeneralCascade.PopLargest` | client/cryptopp/algebra.cpp:183-199 | After a push and a pop the terms are a rearrangement with the largest exponent last and the next largest first. |
| `GeneralCascade.GeneralCascadeMultiplication` | client/cryptopp/algebra.cpp:172-204 | For one, two or more terms, ends and returns the sum of exponent·base of the terms it was given. |
| `Inverse.Gcd` | client/cryptopp/algebra.cpp:56-68 | Ends with the greatest common divisor, up to sign: it divides both, and everything that divides both divides it. |
| `Inverse.MultiplicativeInverse` | client/cryptopp/algebra.cpp:70-88 | For every integer a, negative ones included, ends; the result is an inverse where there is one and zero where there is none if and only if |a| < m, m is 1, or a and m have a common factor. For |a| from m > 1 up it is zero. |
| `Inverse.FiveModuloThree` | client/cryptopp/algebra.h:401-402 | A failing input: equality modulo m stops the loop at once for a remainder of m, so 5 modulo 3 gets zero, though 5·2 is 1 modulo 3. |
| `Inverse.KeptResult` | client/cryptopp/algebra.cpp:70-88 | From the loop invariant g[i] = v[i]·a + k[i]·m at the end, the exact condition for a right result. |
| `CrcTable.TableIsShift` | server/cksum.py:8-59 | Each of the 256 literal table entries is its index shifted through eight steps of division by 0x04C11DB7. |
| `Crc.MemcrcPython` | server/cksum.py:63-74 | The loops, masks and final complement of the Python version compute the table-driven checksum. |
| `Crc.MemcrcCpp` | client/cksum.cpp:441-461 | The loops of the C++ version compute the same checksum for every message below 2^31 octets. |
| `Crc.LookupIsEightShifts` | server/cksum.py:67-69 | One table lookup divides by eight message bits, for every state and octet. |
| `Crc.CksumIsPosix` | server/cksum.py:63-74 | The checksum is the complement of the remainder of message and length octets, low octet first, by bit-serial long division over GF(2), for every message. |
| `Crc.InvertedRemainder` | server/cksum.py:63-74 | Inverting all 32 bits of the checksum gives the remainder of message and length octets, which unpack to the length, low octet first, and do not end in a zero. |
| `Crc.NoOctets` | server/cksum.py:71-74 | An empty file has the checksum 4294967295. |
| `Crc.Digits` | server/cksum.py:63-74 | The digits 1 to 9 have the checksum 930766865, as the cksum utility prints it. |
| `Crc.DetectsBursts` | server/cksum.py:63-74 | Two messages of one length that differ only inside a window of 32 bits, at any bit position, never share a checksum. |
| `Crc.DetectsFourOctets` | server/cksum.py:63-74 | The same for differences within four consecutive octets. |
| `Adler.NextByte` | client/cryptopp/adler32.cpp:17-22 | Adding a byte without reducing keeps both sums congruent to those reduced at each byte. |
| `Adler.SumsAre` | client/cryptopp/adler32.cpp:17-22 | The sums are 1 plus all bytes, and the length plus each byte times how many values of the first sum it is in, modulo 65521: section 8.2 of RFC 1950. |
| `Adler.DigestExamples` | client/cryptopp/adler32.cpp:56-80 | The digests of no bytes and of "Wikipedia". |
| `Adler.NextBlock` | client/cryptopp/adler32.cpp:29-47 | How far the length is from a multiple of 0x8000 bounds the blocks since the last reduction of s2 by 4096. |
| `Adler.Head` | client/cryptopp/adler32.cpp:15-27 | The bytes before a multiple of eight: one conditional subtraction reduces s1, no sum leaves 32 bits. |
| `Adler.EightBytes` | client/cryptopp/adler32.cpp:31-46 | Eight unreduced bytes after up to 4095 unreduced blocks: neither sum reaches 2^32. |
| `Adler.Blocks` | client/cryptopp/adler32.cpp:29-47 | The block loop ends with the sums of all bytes, fully reduced. |
| `Adler.Adler32.Update` | client/cryptopp/adler32.cpp:8-54 | For every input and every split into calls, both sums are those of section 2.2 of RFC 1950 over all the data. |
| `Adler.Adler32.TruncatedFinal` | client/cryptopp/adler32.cpp:56-80 | Writes the leading octets of s2·65536 + s1, high octet first, and starts afresh; more than four is an error that changes nothing. |
| `ModularPowers.ExponentModOrder` | client/cryptopp/blumshub.cpp:55-62 | If x^o is 1, exponents may be reduced modulo o. |
| `Primes.EuclidsLemma` | client/cryptopp/blumshub.cpp:55-62 | A prime that divides a product of a smaller positive number and another divides the other. |
| `Primes.Fermat` | client/cryptopp/blumshub.cpp:55-62 | Fermat's little theorem: a^p is a modulo p. |
| `Primes.EulersTheorem` | client/cryptopp/blumshub.cpp:55-62 | For distinct primes, a^((p-1)(q-1)) is 1 modulo pq if and only if neither divides a. |
| `Primes.ReducedExponent` | client/cryptopp/blumshub.cpp:55-62 | Reducing an exponent modulo (p-1)(q-1) keeps the power modulo pq if and only if something is left of it or neither prime divides the base. |
| `BlumBlumShubGenerator.JumpIs` | client/cryptopp/blumshub.cpp:55-62 | With the primes the class asks for, the jump finds the right square for every seed, also one with a common factor. |
| `BlumBlumShubGenerator.EqualFactorsFail` | client/cryptopp/blumshub.cpp:55-62 | A failing input: with equal factors, which the class does not exclude, the jump finds another number. |
| `BlumBlumShubGenerator.BitPrecision` | client/cryptopp/misc.h:1047-1064 | The binary search over shifts finds the bit count of every 32-bit value. |
| `BlumBlumShubGenerator.BlumBlumShub.constructor` | client/cryptopp/blumshub.cpp:9-53 | A new generator stands at the start of its stream, from the square of the seed. |
| `BlumBlumShubGenerator.BlumBlumShub.GenerateBit` | client/cryptopp/blumshub.cpp:17-26 | Each call returns the next bit of the stream, in which bit t has a closed form: a low bit of x0^(2^(t / maxBits + 1)). |
| `BlumBlumShubGenerator.BlumBlumShub.GenerateByte` | client/cryptopp/blumshub.cpp:28-34 | The next eight bits, first bit highest. |
| `BlumBlumShubGenerator.FirstBitIsHighest` | client/cryptopp/blumshub.cpp:28-34 | The bits of a byte of the stream, highest first, are eight bits of the stream in their order. |
| `BlumBlumShubGenerator.SquaresAre` | client/cryptopp/blumshub.cpp:17-26 | Each square is that of the one before modulo n, from x0 on, and gives its low bits from the highest down. |
| `BlumBlumShubGenerator.StreamExample` | client/cryptopp/blumshub.cpp:17-34 | With the primes 11 and 23 and the seed 3 the first byte is 0x32. |
| `BlumBlumShubGenerator.BlumBlumShub.GenerateBlock` | client/cryptopp/blumshub.cpp:36-40 | The output is the stream from the current position, and the position moves on by as much. |
| `BlumBlumShubGenerator.BlumBlumShub.ProcessData` | client/cryptopp/blumshub.cpp:42-46 | The input with the stream from the current position xored in, also in place. |
| `BlumBlumShubGenerator.BlumBlumShub.Seek` | client/cryptopp/blumshub.cpp:55-62 | For distinct primes congruent to 3 modulo 4 and any seed, or whenever x0^((p-1)(q-1)) = 1 mod pq, the generator stands at bit 8·index of the stream, also at a multiple of maxBits. |
| `BlumBlumShubGenerator.JumpOrStep` | client/cryptopp/blumshub.cpp:28-62 | What is read after seeking to byte k equals what is read after generating k bytes. |
| `BlumBlumShubGenerator.DecipherUndoesEncipher` | client/cryptopp/blumshub.cpp:42-46 | Processing twice from one position gives the text back. |
| `Cmac.LowerTermsAre` | client/cryptopp/cmac.cpp:39-70 | The constants of all five block sizes are the lower terms of the field polynomials named there. |
| `Cmac.DoubleIsTimesX` | client/cryptopp/cmac.cpp:15-73 | What MulU computes is multiplication by x of the polynomial over GF(2) modulo the field polynomial. |
| `Cmac.MulU` | client/cryptopp/cmac.cpp:15-73 | Doubles the octets in place, two at a time with the carry between them, and touches nothing else. |
| `Cmac.CmacBase.UncheckedSetKey` | client/cryptopp/cmac.cpp:79-92 | The register starts at zero, the two subkeys behind it are the single and double doubling of the enciphered zero block. |
| `CmacSubkeys.SubkeysAre` | client/cryptopp/cmac.cpp:79-92 | The subkeys are the enciphered zero block times x, and times x twice, in the field. |
| `CmacSubkeys.SubkeyExample` | client/cryptopp/cmac.cpp:79-92 | The subkeys of the example in section 4 of RFC 4493. |
| `CmacSubkeys.TopBitDoubled` | client/cryptopp/cmac.cpp:39-70 | For each block size, the bit that falls out at the top comes back as the constants written there. |
| `Cmac.CmacBase.Update` | client/cryptopp/cmac.cpp:94-137 | For every split of the message the state stands for the whole message: a non-empty last block is always held back. |
| `Cmac.CmacBase.ProcessBlocks` | client/cryptopp/cmac.cpp:121-127 | Whole blocks go through the chain, but one to a full block of octets stay behind. |
| `Cmac.FinishFull` | client/cryptopp/cmac.cpp:139-160 | Closing with the first subkey when the last block is whole gives the tag. |
| `Cmac.FinishPadded` | client/cryptopp/cmac.cpp:139-160 | Closing with padding bit and second subkey otherwise gives the tag, also for the empty message. |
| `CmacSubkeys.TagOfWhole` | client/cryptopp/cmac.cpp:94-160 | The tag of whole blocks: chained, the first subkey on the last of them. |
| `CmacSubkeys.TagOfPart` | client/cryptopp/cmac.cpp:94-160 | The tag of any other message: a one bit and zeros fill the last block, and the second subkey is on it. |
| `Cmac.CmacBase.TruncatedFinal` | client/cryptopp/cmac.cpp:139-160 | The leading octets of the tag of section 2.4 of RFC 4493 over all the data; then ready for a new message. Too large a size is an error that changes nothing. |
| `Ccm.CcmBase.SetKey` | client/cryptopp/authenc.cpp:53-65 | Accepts exactly ciphers of 16 octets, even tag lengths from 4 to 16 and nonces of 7 to 13 octets; which state it is in after each error. |
| `Ccm.CcmBase.Resynchronize` | client/cryptopp/authenc.cpp:67-78 | A valid nonce clears lengths and data; an invalid one leaves only the key set. |
| `Ccm.CcmBase.Restart` | client/cryptopp/authenc.h:51-51 | Back to the state in which only the key is set, from every later one. |
| `Ccm.CcmBase.SpecifyDataLengths` | client/cryptopp/ccm.cpp:50-90 | The first block and the length prefix of section 2.2 of RFC 3610 enter the chain; lengths beyond the maximum and wrong states are errors that change nothing. A second declaration, or one after header input, is accepted, and from then on no tag is promised. |
| `Ccm.CcmBase.AuthenticateData` | client/cryptopp/authenc.cpp:11-51 | Buffered and passed on octets together are what was given: any split feeds the chain the same blocks. |
| `Ccm.CcmBase.Update` | client/cryptopp/authenc.cpp:80-107 | Which state transitions and errors there are, and that the header given so far grows by the input. |
| `Ccm.CcmBase.AuthenticateLastHeaderBlock` | client/cryptopp/ccm.cpp:99-113 | The header is padded with zeros to a block exactly if its declared length was given. |
| `Ccm.CcmBase.AuthenticateLastConfidentialBlock` | client/cryptopp/ccm.cpp:115-129 | The same for the message. |
| `Ccm.CcmBase.CtrProcessData` | client/cryptopp/authenc.cpp:128-135 | Counter mode from any position: plain and cipher octets differ by the key stream there. |
| `Ccm.CcmBase.ProcessData` | client/cryptopp/authenc.cpp:109-139 | Exact outcome for each state and length; the output is the input xored with the key stream from where the last call stopped, and the chain takes the plain octets in both directions. A call refused for its length changes nothing; one refused for its state or header adds its octets to the total and changes nothing else. |
| `Ccm.CcmBase.TruncatedFinal` | client/cryptopp/authenc.cpp:141-184 | The leading octets of the tag over header and message, the same for both directions; it is given exactly when the declared lengths were reached and no footer was given. |
| `Ccm.CompleteUnlessLost` | client/cryptopp/authenc.cpp:109-184 | With the whole header and message in, the tag can be had if and only if no refused call has counted octets. |
| `Ccm.TooEarly` | client/cryptopp/authenc.cpp:109-127 | A failing run: data offered before the header is complete is refused, and then the tag of the complete message is refused too; without that call it is given. |
| `Ccm.PiecesAreWhole` | client/cryptopp/authenc.cpp:109-139 | Outputs of any sequence of calls, joined, are the output for the joined inputs. |
| `Ccm.AnySplitOpens` | client/cryptopp/authenc.cpp:109-139 | Whatever pieces a message was sealed in, opening the result in any other pieces gives it back. |
| `Ccm.CounterStaysInPlace` | client/cryptopp/ccm.cpp:27-48 | The counter mode object increments all 16 octets as one number, but below the maximum length this never reaches the nonce. |
| `Ccm.KeyOctetIs` | client/cryptopp/ccm.cpp:27-48 | So the key stream it makes is that of the counter blocks of section 2.3 of RFC 3610. |
| `Ccm.AuthStringIs` | client/cryptopp/ccm.cpp:50-129 | What the padding steps produce is the block sequence of section 2.2 of RFC 3610. |
| `CcmEncoding.FlagFields` | client/cryptopp/ccm.cpp:61 | The flags of the first block: bit 0x40 exactly if there is a header, then the length of the tag, then the width of the message length. |
| `CcmEncoding.PrefixFree` | client/cryptopp/ccm.cpp:50-129 | If the blocks that are chained for one complete message are the start of those for another, nonce, header, message and tag length are the same. |
| `CcmEncoding.CountersDiffer` | client/cryptopp/ccm.cpp:27-48 | Two counter blocks are equal only for the same nonce and number, so no octet of the key stream is made twice from one block. |
| `CcmEncoding.CounterIsNoFirstBlock` | client/cryptopp/ccm.cpp:37-61 | And none of them is the first block of a chain. |
| `CcmEncoding.TagIsMasked` | client/cryptopp/authenc.cpp:141-184 | The tag is the start of the end of the chain, masked with the cipher of counter block 0. |
| `CcmEncoding.MessageIsMasked` | client/cryptopp/authenc.cpp:128-135 | Octet i of a message is masked with the cipher of counter block i / 16 + 1. |
| `CcmEncoding.VectorBlocks` | client/cryptopp/ccm.cpp:27-61 | First block and counter blocks of packet vector 1 of RFC 3610. |
| `CcmEncoding.VectorString` | client/cryptopp/ccm.cpp:50-129 | And the whole string of blocks that is chained for it. |
| `BlockCiphers.ChainIs` | client/cryptopp/ccm.cpp:99-129 | The chain: the first block is enciphered, and each later one is added to the block before it and enciphered. |
| `Asn.DERLengthEncode` | client/cryptopp/asn.cpp:20-39 | Writes the shortest definite form of every 64-bit length, and returns how many octets that is. |
| `Asn.BERLengthDecode` | client/cryptopp/asn.cpp:41-77 | Agrees with the parser of length octets on every input: definite, indefinite, missing octets, more than 64 bits. |
| `Asn.ParseLengthIff` | client/cryptopp/asn.cpp:41-77 | A length n is read off exactly the encodings of n, to their end. |
| `Asn.LengthRoundTrip` | client/cryptopp/asn.cpp:20-77 | Reading what was written gives back every 64-bit length, and no encoding of it is shorter. |
| `AsnExamples.LengthExamples` | client/cryptopp/asn.cpp:20-39 | Lengths 0, 127, 201 (the example of section 8.1.3.5 of X.690) and 300 in octets. |
| `Asn.ParseElementComplete` | client/cryptopp/asn.cpp:271-286 | Parsing accepts every encoding of every element, with anything behind it. |
| `Asn.ParseElementSound` | client/cryptopp/asn.cpp:271-286 | Parsing accepts nothing else, and takes exactly the encoding off the input. |
| `Asn.BERGeneralDecoder.Init` | client/cryptopp/asn.cpp:501-512 | Which tags and lengths a decoder accepts, and what it leaves in the queue. |
| `Asn.BERGeneralDecoder.MessageEnd` | client/cryptopp/asn.cpp:553-567 | Accepts a definite element only when all of it was read, an indefinite one only at its end-of-contents octets, which it removes. |
| `Asn.DERGeneralEncoder.MessageEnd` | client/cryptopp/asn.cpp:624-631 | Appends tag, shortest length and the collected contents. |
| `Asn.ReencodeParts` | client/cryptopp/asn.cpp:278-284 | The loop over parts stops at the matching end-of-contents octets with the definite forms of all parts. |
| `Asn.DERReencode` | client/cryptopp/asn.cpp:271-286 | Succeeds exactly on well-formed elements; it ends, consumes exactly one element and appends its definite form. |
| `Asn.BerEncodes` | client/cryptopp/asn.cpp:271-286 | What is read is an encoding of the element by section 8.1 of X.690. |
| `Asn.DefiniteFormEncodes` | client/cryptopp/asn.cpp:271-286 | So is what is written. |
| `Asn.Reencoded` | client/cryptopp/asn.cpp:271-286 | Input and output encode the same tree, and the output has one definite length, in the shortest form. |
| `Asn.DistinguishedForm` | client/cryptopp/asn.cpp:271-286 | For every element the output is DER throughout (section 10.1 of X.690: shortest definite lengths at every level) if and only if the content of every constructed element that came with a definite length was DER already. |
| `Asn.DistinguishedOutput` | client/cryptopp/asn.cpp:276-277 | The same for every input that is parsed. |
| `AsnExamples.NestedExample` | client/cryptopp/asn.cpp:271-286 | A sequence of indefinite length in another one, re-encoded octet by octet. |
| `Asn.DefiniteContentIsKept` | client/cryptopp/asn.cpp:276-277 | A failing input: inside an element of definite length a part of indefinite length is copied as it is, and the output is not DER. |
| `Words32.ShiftsRotate` | client/cryptopp/chacha_simd.cpp:172-180 | The shift-and-or rotations by 7 and 12 are rotations. |
| `Words32.OctetMovesRotate` | client/cryptopp/chacha_simd.cpp:182-206 | The octet shuffles for 8 and 16 are rotations. |
| `Words32.LanesRotate` | client/cryptopp/chacha_simd.cpp:172-206 | So RotateLeft is rotation by all four distances in both forms in which the kernel may be compiled. |
| `Words32.NoCarry` | client/cryptopp/chacha_simd.cpp:583-585 | The 64-bit lane additions leave the neighbouring word alone when the counter is safe. |
| `ChaCha.CounterCounts` | client/cryptopp/chacha.cpp:196-199 | Word 12 with its carry into word 13 counts blocks as one 64-bit number, modulo 2^64; no other word changes, and in the IETF variants word 12 alone counts. |
| `ChaCha.SafeAdvance` | client/cryptopp/chacha.cpp:86-89 | While MultiBlockSafe holds, adding four to word 12 is advancing by four blocks. |
| `ChaCha.RowsAreColumns` | client/cryptopp/chacha_simd.cpp:609-667 | Operations on whole rows are four quarter rounds, one in each column. |
| `ChaCha.ShuffledColumns` | client/cryptopp/chacha_simd.cpp:669-759 | Rotating the rows, a column round, and rotating back is the diagonal round. |
| `ChaCha.VectorRounds` | client/cryptopp/chacha_simd.cpp:607-760 | The round loop on four blocks at once computes four independent block functions. |
| `ChaCha.OperateSSE2` | client/cryptopp/chacha_simd.cpp:573-833 | The four-block kernel writes four consecutive single-block outputs, with the input xored in if there is one. |
| `ChaCha.EightCounters` | client/cryptopp/chacha_avx.cpp:91-140 | The counters of the eight-block kernel, with the carry it works out itself, are those of eight consecutive blocks, four in the upper halves of the vectors and four in the lower. |
| `ChaCha.OperateAVX2` | client/cryptopp/chacha_avx.cpp:91-417 | The eight-block kernel writes eight consecutive single-block outputs, with the input xored in if there is one. |
| `ChaCha.ScalarBlock` | client/cryptopp/chacha.cpp:172-194 | The scalar loop computes the block function of section 2.3 of RFC 8439, for any number of rounds. |
| `ChaCha.SerializedWords` | client/cryptopp/chacha.cpp:54-70 | Each word of a block leaves as four octets, the low one first. |
| `ChaCha.KeystreamWords` | client/cryptopp/chacha.cpp:94-204 | The four octets at 64j + 4i of the stream make word i of the block for the j-th counter. |
| `ChaChaExample.QuarterRoundExample` | client/cryptopp/chacha.cpp:48-52 | The quarter round of section 2.1.1 of RFC 8439. |
| `ChaChaExample.BlockExample` | client/cryptopp/chacha.cpp:172-194 | The block function of section 2.3.2 of RFC 8439, all 16 words. |
| `ChaChaExample.SerializedExample` | client/cryptopp/chacha.cpp:54-70 | And its 64 octets as the RFC prints them. |
| `ChaCha.KeystreamAdd` | client/cryptopp/chacha.cpp:94-204 | The stream of m + n blocks is that of m blocks and then, from the advanced state, of n. |
| `ChaCha.Policy.VectorLoop` | client/cryptopp/chacha.cpp:101-134 | Each vector loop keeps the invariant that output, state and remaining count stand for the blocks done. |
| `ChaCha.Policy.OperateKeystream` | client/cryptopp/chacha.cpp:94-204 | For every block count, counter, round count and any mix of batched and single steps, the output is the concatenation of the single-block outputs for consecutive counters, and the state is advanced by as many. Spelled out: with the input taken off again, the four octets at 64j + 4i make, low octet first, word i of the block for the j-th counter. |
| `BaseN.EncoderBlockSize` | client/cryptopp/basecode.cpp:32-35 | The search ends with the number of characters whose bits make whole octets. |
| `BaseN.DecoderBlockSize` | client/cryptopp/basecode.cpp:117-120 | The same in octets. |
| `BaseN.BaseNEncoder.Turn` | client/cryptopp/basecode.cpp:50-70 | One turn of the inner loop moves bits from the octet to the digit at hand, losing and adding none. |
| `BaseN.BaseNEncoder.PutOctet` | client/cryptopp/basecode.cpp:43-86 | Output and buffer always stand for the octets so far. |
| `BaseN.BaseNEncoder.Put2` | client/cryptopp/basecode.cpp:40-105 | For every base, alphabet and split into calls, the message end leaves exactly the encoded text, padding included, in the output. |
| `BaseN.BaseNDecoder.Place` | client/cryptopp/basecode.cpp:138-154 | A digit that crosses an octet boundary is split over two octets of the buffer. |
| `BaseN.BaseNDecoder.Put2` | client/cryptopp/basecode.cpp:125-168 | For every split of the text into calls the message end leaves exactly the decoded octets in the output; other characters are skipped and left-over bits dropped. |
| `BaseN.Grouper.Put2` | client/cryptopp/basecode.cpp:206-235 | A separator before every group but the first and the terminator at the end, for every split into calls. |
| `BaseExamples.OneGroup` | client/cryptopp/basecode.cpp:206-235 | What fits into one group stays as it is. |
| `BaseExamples.FirstGroup` | client/cryptopp/basecode.cpp:206-235 | A whole group with something behind it is followed by the separator and the groups of the rest. |
| `BaseText.FlatCut` | client/cryptopp/basecode.cpp:40-105 | Cutting a bit string into digits and joining them again adds fewer than one digit of zeros. |
| `BaseText.RoundTrip` | client/cryptopp/basecode.cpp:14-168 | For 1 to 7 bits a character, every alphabet with a matching table, with or without padding: decoding any text that reads like the encoding gives the octets back. |
| `BaseText.GroupedRoundTrip` | client/cryptopp/basecode.cpp:14-235 | The same through grouper separators and terminators outside the alphabet. |
| `BaseText.Base64IsRfc4648` | client/cryptopp/base64.cpp:52-67 | With 6 bits, the standard alphabet and padding the text is that of section 4 of RFC 4648. |
| `BaseExamples.Base64Table` | client/cryptopp/base64.cpp:10 | The alphabet, written out. |
| `BaseExamples.Base64Vectors` | client/cryptopp/base64.cpp:52-67 | Test vectors of section 10 of RFC 4648. |
| `BaseText.Base64Matches` | client/cryptopp/base64.cpp:10-30 | The standard table matches the standard alphabet and skips padding and line breaks. |
| `BaseText.Base64RoundTrip` | client/Base64Wrapper.cpp:4-27 | Decoding undoes encoding for every octet string. |
| `BaseN.Encode` | client/Base64Wrapper.cpp:4-15 | The filters in a row, without line breaks, give the text of RFC 4648. |
| `BaseN.Decode` | client/Base64Wrapper.cpp:17-27 | From such a text the stored octets come back. |
| `LittleEndian.UnpackPack` | server/protocol.py:28-35 | A number that fits its width is read as it was written. |
| `LittleEndian.PackUnpack` | server/protocol.py:28-35 | And no two octet strings of one width are read as the same number: packing gives them back. |
| `LittleEndian.LowOctetFirst` | server/protocol.py:28-35 | The low octet stands first, and the rest of the number behind it. |
| `Framing.UnpackHeaderOfPack` | client/RequestManager.cpp:204-212 | The server reads the four header fields that the client packed. |
| `Framing.ReceiveBytes` | server/client_handler.py:57-70 | However the network cuts the stream, the result is exactly the next octets, or an error when there are too few. |
| `Framing.ReceiveResponse` | client/RequestManager.cpp:191-203 | However the stream is cut, the client reads exactly the response at its front and leaves what follows; if the stream ends inside the response it is an error. |
| `Framing.ResponseRoundTrip` | server/client_handler.py:97-105 | What the server writes is what the client reads. |
| `Framing.HeaderExample` | client/RequestManager.cpp:204-212 | The octets of a request header. |
| `Framing.ResponseExample` | server/client_handler.py:97-105 | The octets of a response. |
| `Framing.PacketExample` | client/RequestManager.cpp:223-232 | The octets of a packet: sizes, numbers, name and data. |
| `Replies.ReplyIsRead` | server/client_handler.py:97-105 | The client reads each reply as the code and payload the handler sent, whatever follows it on the wire. |
| `Replies.ClientUnderstands` | client/RequestManager.cpp:41-51 | Each function of the client takes out of a response exactly the identifier, key or checksum that the handler put in; every other reply raises there, and 1606 alone is taken as a refusal to reconnect. |
| `Replies.FileFields` | server/client_handler.py:230-231 | The other fields of 1603: identifier, size of the ciphertext and name. |
| `Framing.NameFieldRoundTrip` | client/RequestManager.h:43-48 | The server sees the name that was copied into the field, or its first 254 octets. |
| `Framing.FilePayloadRoundTrip` | server/file_manager.py:16-29 | The server reads all fields of a packet, and its data, as the client packed them; a name that is not ASCII raises. |
| `Framing.HexToBytes` | client/RequestManager.cpp:256-260 | The octets whose hexadecimal text is given are in the buffer, and the rest of it is unchanged. |
| `Framing.HexAt` | client/RequestManager.cpp:249-260 | Each pair of digits that bytesToHex writes is read back as its octet. |
| `Framing.HexInjective` | client/RequestManager.cpp:249-255 | Different identifiers have different texts, so different upload directories. |
| `Server.StepComesCloser` | server/client_handler.py:135-263 | Every handler comes to an end: each operation leads to one with a lower rank. |
| `Isolation.PathsDiffer` | server/file_manager.py:34-35 | Different identifiers and names have different paths. |
| `Isolation.WriteIsLocal` | server/file_manager.py:43-44 | Writing a file of one client changes that file, and nothing in any other client's view. |
| `Isolation.VerifyIsLocal` | server/database.py:158-172 | The update of the Verified column hits exactly the rows of one client with that name, and no other client's. |
| `Isolation.StepIsLocal` | server/client_handler.py:135-263 | Every single file operation or SQL statement acts on its own client's view as if alone, and leaves all other views as they are. |
| `Isolation.Interleaving` | server/client_handler.py:26-55 | Under every schedule of single steps of any number of threads with distinct clients, each client's files, rows, key and replies are those of its own run alone. |
| `Isolation.KeyAgreement` | server/client_handler.py:135-211 | For any sequence of key exchanges and transfers, from any earlier state of the client: whenever no exchange is under way, the key it was granted last is the one the database holds. |
| `Isolation.KeyAgreementAmongOthers` | server/client_handler.py:135-211 | The same among any other clients, under any schedule. |
| `Handlers.HandleIsLocal` | server/client_handler.py:72-93 | A whole request handled on the shared state is the same request handled on the view of its client, and leaves the others alone. |
| `Handlers.RegisterIsLocal` | server/client_handler.py:107-133 | Registration adds one row under a new identifier, leaves everything of other clients, keeps names distinct, and reports success exactly when it added the row. |
| `Handlers.Database.RegisterClient` | server/database.py:66-80 | Adds a row without keys, unless the name is too long or the identifier is there. |
| `Handlers.Database.UpdateClientKey` | server/database.py:82-95 | Sets both keys in the row of that client only, and says whether there was one. |
| `Handlers.Database.SaveFile` | server/database.py:144-156 | Appends an unverified row, unless the path is longer than the column allows, which is an error. |
| `Handlers.Database.UpdateFileVerified` | server/database.py:158-172 | Every row with that owner and name becomes verified and all others stay; says whether there was one. |
| `Handlers.RequestHandler.SaveChunk` | server/file_manager.py:32-46 | The first packet makes the directory and starts the file anew, the others append; a missing directory or a bad name is an error. |
| `Handlers.RequestHandler.ProcessFile` | server/file_manager.py:49-67 | With a key and a valid ciphertext the file is replaced by its plaintext and a row is inserted; each failure leaves what the steps before it did. |
| `Handlers.RequestHandler.HandleRegistration` | server/client_handler.py:107-133 | Refuses names that are empty, not ASCII or taken, and otherwise answers with the new identifier. |
| `Handlers.RequestHandler.HandlePublicKey` | server/client_handler.py:135-172 | State, replies and exceptions are those of the step-by-step handler, on every path. |
| `Handlers.RequestHandler.HandleReconnect` | server/client_handler.py:174-211 | The same for reconnecting. |
| `Handlers.RequestHandler.HandleSendFile` | server/client_handler.py:213-235 | The same for a packet; only the last packet is answered. |
| `Handlers.RequestHandler.HandleCrcOk` | server/client_handler.py:237-250 | The same for 900. |
| `Handlers.RequestHandler.HandleCrcAbort` | server/client_handler.py:252-263 | The same for 902. |
| `Handlers.RequestHandler.RouteRequest` | server/client_handler.py:72-93 | Each numeric code reaches its handler, 901 and unknown codes none; the outcome is that of the step-by-step handler, which is what makes the results on steps results about the handlers. |
| `Outcomes.Codes` | server/client_handler.py:72-93 | Which of the seven numbers asks for what, and that no other asks for anything. |
| `Outcomes.RaisesExactly` | server/client_handler.py:239-263 | Which codes and payloads end a connection by an exception. |
| `Outcomes.RoutedOnItsView` | server/client_handler.py:72-93 | Requests 826 to 902, routed by number on the shared state, are handled on the view of their client, and leave those of others. |
| `Outcomes.UnknownCodesDoNothing` | server/client_handler.py:74-78 | Other numbers change nothing and are not answered. |
| `Outcomes.Registers` | server/client_handler.py:107-133 | 825: a new ASCII name of 1 to 255 characters with a new identifier gets a row and 1600; everything else gets 1601 and changes nothing. |
| `Outcomes.PublicKeyAccepted` | server/client_handler.py:135-165 | 826 of a registered client: the row holds the key sent and the fresh key, and the answer has the fresh key enciphered, if that is possible. |
| `Outcomes.PublicKeyRefused` | server/client_handler.py:135-172 | Every other 826 gets 1607 and changes nothing. |
| `Outcomes.ReconnectAccepted` | server/client_handler.py:174-205 | 827 of a client with a public key: the row holds the same public key, the fresh key and the time, and the answer is 1605 with the fresh key enciphered, if that is possible. |
| `Outcomes.ReconnectRejected` | server/client_handler.py:185-190 | 827 is rejected if and only if there is no row or no public key in it, and then nothing changes. |
| `Outcomes.ReconnectAt827` | server/client_handler.py:174-205 | The same on database and file system through the numeric code: row, answer, and nothing else changed. |
| `Outcomes.KeyIsTaken` | client/RequestManager.cpp:102-104 | The key the client takes out of 1602 or 1605 is the one that was enciphered; no other reply has one. |
| `Outcomes.ReconnectGrants` | server/client_handler.py:174-205 | A reconnect in single steps: after the fourth the client and its row have the fresh key, whatever key it had. |
| `Outcomes.PublicKeyGrants` | server/client_handler.py:135-165 | A first key in two. |
| `Outcomes.FirstPacketStored` | server/file_manager.py:32-46 | 828, first of several packets: the file holds its data only. |
| `Outcomes.LaterPacketStored` | server/file_manager.py:32-46 | A later one that is not the last: its data is at the end of the file; without the directory it is refused. |
| `Outcomes.LastPacketProcessed` | server/client_handler.py:213-235 | The last packet: the file holds the plaintext, a row not yet verified is added, and the answer has the size of the ciphertext and the checksum of the plaintext; what each failure leaves. |
| `Outcomes.Confirmed` | server/client_handler.py:237-250 | 900: the rows of that name become verified, all others stay. |
| `Outcomes.NothingChanges` | server/client_handler.py:90-93 | 901 and 902 change nothing; short payloads of 900 and 902 neither. |
| `Service.SoloServes` | server/client_handler.py:26-55 | A thread alone, step by step, handles the requests it has read one after the other, each as a whole. |
| `Service.InterleavedService` | server/client_handler.py:26-55 | So does a thread among other clients under any schedule, on the view of its own client. |
| `Connection.RaisesIff` | server/client_handler.py:72-93 | Whether a request ends the connection by an exception depends on the request alone: its code, and whether its name is ASCII. |
| `Connection.ClientHandler.ReceiveRequest` | server/client_handler.py:30-43 | The next request of the stream, an end inside it, or a payload that is too long; nothing behind it is read. |
| `Connection.ClientHandler.Run` | server/client_handler.py:26-55 | However the network cuts the stream, exactly the requests in it are routed to their handlers, in order, up to the one that ends the connection; disk, database and replies are those of these requests, and a payload that is too long is answered with an error. |
| `Connection.RoutesWhatWasWritten` | client/RequestManager.h:50-62 | The requests routed are the (id, code, payload) sequence the client wrote, all of it or up to the first whose handler raises. |
| `Connection.CodesSent` | client/RequestManager.cpp:163-188 | The codes of all requests of a transfer: packets, 901 after each failed attempt but the fourth, then 900 or 902. |
| `Connection.VerdictCodes` | client/RequestManager.cpp:153-155 | 900 and 902 carry the name of the file in a field of 255 octets. |
| `Connection.EndsAt` | server/client_handler.py:26-55 | A stream that stops inside a request closes the connection, and a payload of more than 50 MiB ends it, without routing anything. |
| `Transfer.PacketsJoin` | client/RequestManager.cpp:218-223 | Packet k is the piece between its offsets; packets put together again are the data, with nothing missing after the last. |
| `Transfer.WidthsSuffice` | client/RequestManager.cpp:215-221 | The 16-bit packet count and the signed offsets are right if and only if there are at most 2^31 encrypted octets. |
| `Transfer.AttemptReads` | client/RequestManager.cpp:214-235 | What the server reads in each packet of an attempt, with the fields and offsets written out. |
| `Transfer.PacketsSuffice` | client/RequestManager.cpp:215-216 | There are as many packets as it takes to hold the ciphertext, and no more. |
| `Transfer.TransferFileInPackets` | client/RequestManager.cpp:214-235 | Sends exactly the packets of one attempt, in order, or those before the one whose sending raises. In the k-th request sent the server reads the sizes of ciphertext and file, k, the number of packets, the name, and the k-th mebibyte of the ciphertext, or a name that is not ASCII. |
| `Transfer.SendFile` | client/RequestManager.cpp:144-188 | The replies decide what goes out: 900 exactly after the right checksum, 901 exactly after a wrong one that is not the fourth, 902 exactly after four wrong ones; an exception comes from the connection or from an answer other than FileOK, at any point. |
| `Transfer.Conclude` | client/RequestManager.cpp:170-180 | What follows one answer: 900, 901, or neither after the fourth. |
| `Transfer.MovesKeepInv` | client/RequestManager.cpp:144-247 | The invariant of client, server and replies under way is kept by every move, also when packet data is altered in flight. |
| `Transfer.RunsFollowTheScript` | client/RequestManager.cpp:163-188 | In every run, also when the server closes the connection in the middle of an attempt, what was sent and the replies read determine each other as in sendFile: at most four attempts, 901 exactly between failed ones, and one 900, one 902 or an exception at the end. |
| `Transfer.RepliesAnswerTheLastRequest` | client/RequestManager.cpp:237-241 | Whenever the client reads a reply, it is the only one under way and answers the last request sent, although 901 and packets before the last get none. |
| `Transfer.VerifiedFilesAreChecked` | server/client_handler.py:237-250 | At the step at which any row becomes verified, the stored plaintext has the checksum of the client's file. |
| `Transfer.VerifiedFilesHoldNoBurst` | client/RequestManager.cpp:169-175 | So a verified file that differs from the client's only within four consecutive octets does not differ. |
| `Transfer.MovesComeToAnEnd` | client/RequestManager.cpp:165-188 | Every move makes a measure smaller, so every run ends. |
| `Transfer.NeverStuck` | client/RequestManager.cpp:165-188 | A run that has not ended can always go on: no side waits for a message that will not come. |
| `Retries.FourthAttempt` | client/RequestManager.cpp:165-180 | In every run a fourth attempt is made exactly if the first three answers were FileOK with a wrong checksum. |
| `Retries.FourAttempts` | client/RequestManager.cpp:165-188 | Whenever some octets decrypt to a file with another checksum, there are runs that reach the fourth attempt and runs that end with 902 after it. |
| `Retries.FourthAttemptHappens` | client/RequestManager.h:10-10 | A concrete run with a fourth attempt. |
| `Transfer.FirstAttempt` | client/RequestManager.cpp:144-188 | Without alterations there is one attempt; the run that has ended succeeded if and only if the name is ASCII and its path fits the table. |
| `Transfer.AcceptableNames` | server/database.py:40-47 | That is so exactly for ASCII names of at most 214 octets. |
| `Transfer.LongNameFails` | server/database.py:44-44 | A failing input: a name of 215 letters ends the client with an exception. |
| `Transfer.StoredAndVerified` | server/file_manager.py:49-67 | After success the stored file is the client's and its row is verified. |
| `Connection.SentIsDecoded` | client/RequestManager.cpp:204-235 | Every request of sendFile, packets included, carries the client's identifier and version 3, is within the server's payload limit, is decoded from its code and payload as what it is, and raises only if the name is not ASCII. |
| `Connection.ScriptIsRouted` | client/RequestManager.cpp:144-188 | The octets of whatever sendFile has sent are routed as exactly these requests; with a name that is not ASCII only the first packet is. |
| `Connection.RoutedIsServed` | server/client_handler.py:26-93 | Requests of one client, routed on the shared state, act on its view as if alone and leave the others. |
| `Connection.TransferOnTheWire` | client/RequestManager.cpp:144-188 | From wire to disk: when the octets of an undisturbed transfer are read, the file is stored and verified, the two replies are sent, and nothing of other clients has changed. |
| `Service.RunHandles` | server/client_handler.py:213-263 | In every run the server's files, rows and replies are those of the requests it received, handled one after the other. |
| `Service.RunAmongOthers` | server/client_handler.py:213-263 | The same requests in a thread among other clients, under any schedule, leave the same files, rows and replies, so results on runs hold there. |
| `Service.TransferAmongOthers` | server/client_handler.py:213-263 | An undisturbed transfer among other clients under any schedule ends with the file stored and verified. |

## Left out

Members whose contract says less than the source might be asked for:

- Crc.MemcrcCpp: asks for fewer than 2^31 octets, because the loop counter of the source is an int that overflows beyond.
- Inverse.MultiplicativeInverse: the ring of integers modulo a positive number; the source is a template over Euclidean domains.
- Transfer.FirstAttempt: asks for at most 2^31 encrypted octets, because offsets of the source are signed 32-bit numbers; Transfer.WidthsSuffice shows that more cannot work.
- Transfer.MovesKeepInv: data of packets may be altered in flight, not their headers, and verdicts and replies arrive as sent.
- Isolation.Interleaving: threads of registered clients with distinct identifiers; registration, which reads other clients' names, is handled as one operation in Handlers and Connection only.
- Isolation.KeyAgreement: after an exchange that was refused the client counts as having no key, although the one it had before may still be in the database.
- BlumBlumShubGenerator.BlumBlumShub.Seek: for factors that are neither distinct primes congruent to 3 modulo 4 nor such that x0^((p-1)(q-1)) is 1, nothing is stated; Primes.ReducedExponent says for which exponents and bases any two distinct primes do.
- Outcomes.ReconnectAccepted: for a public key that cannot encipher, the answer is 1607 although the row has the new key, as in the source.
- Replies.FileFields: names of at most 255 octets, which is all the server can have read.
- BlumBlumShubGenerator.BlumBlumShub.constructor: asks that the bit count of the modulus fits 32 bits, as the class of big integers does.
- Asn.DERReencode: asks that five times the input is below 2^64 octets, so that no length overflows; tags of one octet only, as in the source. A decoder of indefinite length reads from the queue at the bottom directly, where the source passes each read down through the decoders. After a failure only the sizes of the queues are bounded, since the destructors still consume and emit some octets.
- Ccm.CcmBase.SpecifyDataLengths: for a second declaration or one after header input, which the source asserts against, the outcome and the lengths are stated, but not what is then in the chain.
- Ccm.CcmBase.TruncatedFinal: without declared lengths the outcome is stated, but not the tag, which the source does not promise either.
- Ccm.CcmBase.Update: header lengths below 2^64, the width of the source's counter; what a footer does to the chain is not stated, since no tag is given after one.
- Cmac.CmacBase.UncheckedSetKey: block sizes of 8, 16, 32, 64 or 128 octets, those that MulU asserts.
- ChaCha.OperateAVX2: the two halves of the vectors are worked on one after the other, where one instruction of the source does both.
- ChaCha.Policy.OperateKeystream: NEON, Altivec and POWER8 kernels repeat the four-block argument and are not modelled.
- GeneralCascade.PopLargest: stands for the standard library's heap operations by what they promise for the first and the last term.
- SlidingWindow.SimultaneousMultiply: group operations return values; the source's reuse of one result object, and results that alias the base, are not modelled.
- BaseN.BaseNEncoder.Put2: what is handed to the attached filter is a field of the encoder; blocking and resuming in the middle of a call are not modelled.
- BaseText.RoundTrip: any table that matches the alphabet; how InitializeDecodingLookupArray fills one is not modelled.
- Handlers.RequestHandler.ProcessFile: the disk is a map from paths and each SQL statement is atomic and succeeds but for its CHECK constraints; disk and database errors are not modelled.
- Connection.ClientHandler.Run: a reply that cannot be sent is not modelled; the source ends the connection then.
- Retries.FourAttempts: in the runs given the first packet of each attempt is replaced and the others are emptied; the concrete run of Retries.FourthAttemptHappens keeps the length of its packets.

Not modelled:

- The client's files (`me.info`, `priv.key`, `transfer.info`), logging, console output, the port file and thread start-up.
- Sockets, Boost.Asio and SQLite themselves, and `struct.error` cases that cannot occur with fixed formats.
- RSA, AES, PKCS#7, and the block ciphers, hashes and other algorithms of Crypto++, with their tables.
- The other members of algebra.cpp (ring operations that rename group operations), and key, nonce and seek set-up of the ChaCha variants.
- Encoders and decoders of ASN.1 values other than lengths and whole elements, and `EncodedObjectFilter`, whose meaning depends on queue code.
- The division of the source's classes: public and private Blum-Blum-Shub are one class here, and so are the CCM base classes.
