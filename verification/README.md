# A verified model of the OTR library and its ciphers

The repository carries libotr (`OTRL/`) and part of libgcrypt
(`libgcrypt/libgcrypt/cipher/`) around a chat plugin. This project models, in Dafny,
the parts of both that keep state over many steps, or that compute a thing in a form
far from its definition, and proves what they are for:

- **The data-message ratchet** (`Ratchet`, `ConnContext`, `Bookkeeping`, `RatchetRuns`,
  `Windows`, `Delivery`, `DataLayout`, `DataState`, `Wire`). A class with the fields of `context_priv` follows
  `rotate_dh_keys`, `rotate_y_keys`, `otrl_proto_create_data`, `otrl_proto_accept_data`
  and `go_encrypted` down to the message octets. Over every run under an arbitrary
  network: no counter is used twice for a pair of keys, nothing is accepted twice, and
  every receiving MAC key that verified something is revealed once, after the slot it
  belonged to stopped accepting. For two parties over channels that lose messages and
  keep their order: every message delivered is accepted and gives back the text and the
  records that were sent. The octets of a message are stated one by one, both instance tags
  included, and it is said exactly who takes a message and what is left then.
- **The Socialist Millionaires' Protocol** (`Smp`, `SmpSteps`, `SmpProofs`, `SmpChecks`, `SmpSound`, `Fermat`), with
  real modular arithmetic: an honest run that is not cut short by a range check gives both
  sides the same verdict, success exactly when the secrets are equal; each step takes exactly
  the messages in range whose proofs open; and two accepted
  answers to one commitment under different challenges give away the prover's exponents.
- **The authenticated key exchange** (`Ake`, `AkeExact`, `AkeRuns`, `AuthInfo`) as a state machine over
  symbolic cryptography: agreement for any number of contexts against a network that
  drops, repeats, reorders and invents messages, completion from every state of the
  responder that answers a commitment, and what becomes of each message in each state; a
  responder finishes only with the key a commitment handed to it before opens to.
- **Camellia** (`Words`, `Camellia`, `CamelliaCode`, `CamelliaRound`, `CamelliaKeys`,
  `CamelliaSetup`, `CamelliaKnown`): the code with kw2 and kw4 absorbed into the other subkeys, and the key
  added at the end of a round, computes the cipher of RFC 3713, and decryption inverts it;
  with the table of SBOX1 it meets the known answers of the source's self-test.
- **GHASH** (`Gf`, `GcmTable`, `Ghash`, `GhashCode`, `Ghash64`): the nibble tables, on 32-bit words
  and on 64-bit words, compute the same product in GF(2^128) as the bit-by-bit form.
- **CBC with ciphertext stealing** (`BlockCipher`, `Handle`, `Cbc`, `CbcLengths`, `CbcCode`,
  `CbcBack`): encryption and decryption over any block cipher, input and output being the
  same buffer or not; decryption inverts encryption for every length the code takes.
- **AES key wrap** (`BlockCipher`, `Counters`, `KeyWrap`, `KeyWrapShift`): the six rounds over the registers
  with the octet counter running up and down; unwrapping succeeds on exactly what wrapping
  makes, and gives the key data back; the wrap is also the one of the form of RFC 3394 that moves
  the registers instead of counting through them.
- **The streaming modes CFB and CTR** (`Stream`, `StreamCode`, `StreamBlocks`): however the data is cut into
  calls, in place or not, the result is that of one call, and another cutting of the
  ciphertext decrypts to the data, and the text is that of the block-by-block definitions.
- **CMAC and the buffering of CCM and GCM** (`Mac`, `MacCode`, `CmacField`, `GcmBuffer`): however the message is
  cut into calls, the tag is the one-shot definition's, and the hash of GCM that of the zero-padded
  parts in one string; the subkeys of CMAC are products by x in GF(2^128) or GF(2^64).
- **Messages** (`Fragment`, `FragmentExact`, `Base64`, `Instances`): fragments are put together again
  exactly as sent, and under loss, repetition and junk it is said exactly when a message is called
  complete; the base64 envelope; and the choice among the instances of a correspondent.
- **The list of contexts** (`ContextList`), linked in place with back pointers: finding and adding
  keep it sorted and linked, and forgetting a master takes out its whole group or nothing.

Methods follow the C code and are proved equal to functions on the state; the theorems
are about those functions. Functions such as the hash, HMAC, the keystream, the S-box and
the discrete-logarithm group are parameters, so every theorem holds for all of them that
meet the stated conditions.

## Conditions and findings

- `otrl_dh_session` decides which end is "high" by comparing the two public keys. The two
  ends derive mirrored keys if and only if the public keys differ, or the derived high and
  low keys happen to coincide (`Dh.SessionMirror`); the runs of `Delivery` therefore assume
  that a fresh key is not one the other end has.
- `go_encrypted` rebuilds column 0 of the table only. Column 1 holds whatever was there; it
  is never used before the next rotation of the peer's key, because the test for a missing
  older key comes first (`Ratchet.GoEncryptedTable`, `Ratchet.SlotIsSession`, `RatchetRuns.EncryptedKeys`).
- `sendmacused` is set nowhere in the code, so only receiving MAC keys are ever revealed.
- A message with a good MAC and an old counter is refused, but its MAC key is marked as used
  before the counter is looked at; the bookkeeping counts it as having verified a message.
- `otrl_auth_handle_revealsig` overwrites `r` before it looks at the state, so a message it
  ignores changes the state. Agreement holds all the same. A message whose r does not open the
  commitment is ignored without an error, one that opens it to anything but one number in range is an
  error (`AkeExact.RevealTakes`).
- `_gcry_cipher_aeswrap_encrypt` writes the initial value to the output before it moves the
  input (cipher-aeswrap.c:71-77). With the same buffer for both, the first eight octets of the
  key data are lost; the result is the wrap of the data if and only if they equal the initial
  value (`KeyWrap.InPlace`), and with the standard initial value sixteen zero octets are wrapped wrongly under every cipher
  (`KeyWrap.ZerosInPlace`). Unwrapping in place is right.
- After CBC with stealing, encryption and decryption of the same message leave different
  chaining values in the handle: encryption keeps the last block it wrote, decryption the stolen
  block it put together. They agree exactly when nothing is stolen, or the last block, filled up
  with zeros, is the one block that the blocks before it determine (`CbcBack.ValuesAgree`). So under
  every cipher they differ for one at least of any two messages that differ in the last block alone
  (`CbcBack.ValuesDisagree`), for instance two blocks of zeros, or these with another last octet
  (`CbcBack.ZerosOrNot`).
- The range check of the Socialist Millionaires' Protocol lets through p - y with every y. The
  check of a proof gives both the same commitment exactly when the challenge is even, or the
  commitment is zero (`SmpSound.SignUnchecked`), although the negative of a power of the generator is
  none (`SmpSound.NegativeNotMember`): every honest proof whose challenge comes out even is accepted
  for an element without an exponent (`SmpSound.NegativeAccepted`). What two answers prove of any
  number in range is that it or its negative is the power to the exponent they give
  (`SmpSound.KnowLogSound`).
- A context that has sent its D-H Key Message answers a further commitment with the same
  message, in the version it had. If the new commitment is of another version, the initiator
  ignores the answer. This and losing the tie-break are the only ways a commitment stays
  without an answer (`Ake.AnswersExactly`).
- `check_pubkey_auth` stores the fingerprint as soon as the public key is read. An authenticator
  that ends behind it, or fails any later test, leaves the fingerprint changed.
- `otrl_proto_fragment_create` reckons the header by the version of the context and prints it by
  the version of its auth. When only the auth is at version 3, the end of every fragment is
  cut off and none can be read; a message is put together again if and only if this is not so
  (`Fragment.ReassembledExactly`).
- A largest message below the header length makes a negative room: the message is refused, or when
  it is no longer than what is missing, sent whole (`Fragment.BelowHeader`). A largest message of just
  the header length divides by zero (OTRL/message.c:96).
- `otrl_context_find_recent_secure_instance` compares message state and trust both at once. What
  it returns is beaten by no other instance. All starts give results of one level if and only if
  some instance is at least as good as all others (`Instances.OneLevel`); `Instances.TwoAnswers` is a
  group where they do not.
- `otrl_context_find` asks for a master to be added along with a new instance, but that instance is
  in the list by then: where there is no master, it is filed under the least instance of its names,
  perhaps itself, and none is added. Every context stays filed under a listed master
  exactly when no instance is added before its master (`ContextList.UserState.Find`); on such a list
  forgetting takes whole groups. Otherwise forgetting the first instance leaves the second with a
  pointer to a freed context (`ContextList.ChildLeftBehind`).
- In `do_cbc_mac` and `do_ghash_buf` a full block may be waiting or already mixed in, depending on
  how the data was cut; the two states are equivalent from then on (`Mac.NormFeed`).
- Key numbers are 32-bit and counters 64-bit in the operations, wrap-around included. The
  theorems over runs ask that the run is short enough for no number, and no length of saved MAC
  keys, to reach its limit.
- The sessions on a run start where `go_encrypted` leaves the state (`RatchetRuns.GoEncryptedStarts`).

## Model

| member | source | states |
|---|---|---|
| RatchetRuns.NoCounterReuse | OTRL/proto.c:483-643 | In any run of sends, deliveries of arbitrary octets and rotations, no two created messages carry the same our-key number, their-key number and counter, although slots move around the table |
| RatchetRuns.NoReplay | OTRL/proto.c:709-894 | In any run, under any network, no (sender key, recipient key, counter) is accepted twice |
| RatchetRuns.MacKeysConserved | OTRL/proto.c:104-144 | The octets revealed so far followed by the saved buffer are the initial buffer followed by the retired MAC keys, in order and each once; the buffer holds 20 octets per counted key; a pair of keys that verified a message is retired if and only if it left the table |
| RatchetRuns.RetiredRefused | OTRL/proto.c:808-820 | A message naming a pair whose MAC key was retired for revealing is refused ever after |
| RatchetRuns.GoEncryptedStarts | OTRL/message.c:557-631 | From any state, an exchange with a new key or number on either side, another fingerprint or no session before leaves the state from which the run theorems start |
| RatchetRuns.RefreshKeeps | OTRL/message.c:557-583 | An exchange over our older key and their current or older key, each under its number, with the same fingerprint and while encrypted, changes nothing; nor does one with our own key |
| RatchetRuns.EncryptedNumbers | OTRL/message.c:586-631 | After any other exchange: their key and number are those of the exchange, their older key is gone, our number is one above that of the exchange |
| RatchetRuns.EncryptedKeys | OTRL/message.c:601-626 | Our keys stay when the exchange used the older one under its number, otherwise they are the key of the exchange and a fresh one; column 0 holds their sessions with the new key of the peer, column 1, the saved keys and the tags stay |
| RatchetRuns.RunInv | OTRL/proto.c:483-894 | The bookkeeping invariant (counters sent and accepted, used marks, retired marks, conservation) holds at the end of every run |
| RatchetRuns.AfterReady | OTRL/proto.c:148-894 | Every send and every delivery keeps a context ready: table correct, encrypted, version known |
| RatchetRuns.StartInv | OTRL/message.c:586-631 | The state after the key exchange satisfies the bookkeeping invariant with nothing logged |
| Bookkeeping.InvAccept | OTRL/proto.c:822-855 | Accepting a message whose counter is above the slot's keeps every invariant on counters and marks |
| Bookkeeping.MidRow | OTRL/proto.c:148-192 | Moving the rows down retires exactly the used keys of the row that falls out |
| Bookkeeping.MidColumn | OTRL/proto.c:196-233 | Moving the columns retires exactly the used keys of the column that falls out |
| Bookkeeping.InvSend | OTRL/proto.c:561-606 | Sending reveals the whole saved buffer and keeps every invariant |
| Delivery.EveryDeliveryExact | OTRL/proto.c:483-894 | Over lossy channels that keep their order, in every interleaving of the two ends, each message delivered is accepted and yields the text, the TLV chain, the flags and the extra key of its sender |
| Delivery.MatchingStart | OTRL/message.c:586-631 | Two ends that hold each other's keys after the exchange, with empty channels, are a good configuration |
| Delivery.ExchangesMatch | OTRL/message.c:557-631 | When two exchanges agree on both public keys and both key numbers, and neither is one over the keys in use, `go_encrypted` leaves the two ends matching |
| Delivery.TakeWellMade | OTRL/proto.c:709-894 | A context whose table covers the named keys accepts a message made with those keys and gives back what was sent |
| Delivery.ActGood | OTRL/proto.c:148-894 | Sending, hearing and losing a message keep the two ends and the channels in step |
| Delivery.HeadCanBeTaken | OTRL/proto.c:808-845 | The key numbers in the oldest message on its way always fall in the receiver's two-key windows, and its counter is above the slot's |
| Windows.HeadInWindow | OTRL/proto.c:808-825 | The numeric core of the same fact, from the invariant of one direction |
| Windows.ReceiverColumn | OTRL/proto.c:196-233 | Rotating the peer's key at the receiver keeps every message on its way inside the windows |
| Windows.SenderRow | OTRL/proto.c:148-192 | Rotating its own key at the sender keeps every message on its way inside the windows |
| Windows.SendKeeps | OTRL/proto.c:483-606 | A new message extends the channel without breaking its order or the windows |
| Ratchet.RotateDhTable | OTRL/proto.c:148-192 | Rotating our key keeps each slot the session of the keys its row and column name |
| Ratchet.RotateYTable | OTRL/proto.c:196-233 | Rotating their key keeps each slot the session of the keys its row and column name |
| Ratchet.CreateDataTable | OTRL/proto.c:483-643 | Sending keeps the table and empties the saved buffer |
| Ratchet.AcceptDataTable | OTRL/proto.c:709-894 | Receiving any octets, in any message state, keeps the table |
| Ratchet.GoEncryptedTable | OTRL/message.c:586-631 | Rebuilding column 0 alone is enough for the table to be correct |
| Ratchet.NewPrivTable | OTRL/context_priv.c:32-64 | A new context has a correct table |
| Ratchet.SlotIsSession | OTRL/proto.c:808-825 | A message whose keys are known selects a slot inside the table, live, and the session of exactly the two keys it names |
| Ratchet.IndexInTable | OTRL/proto.c:822-825 | The index computed from the key numbers, with unsigned wrap-around, is 0 for the current key and 1 for the older |
| Ratchet.ParsedCtrFits | OTRL/proto.c:763-771 | A parsed counter is below 2^64 |
| Wire.MessageOctets | OTRL/proto.c:537-606 | The octets of a created message one field after the other, and the state it leaves: version, kind, our instance tag and theirs, flags, the two key numbers, the newest key, the counter, the text under it, the MAC of all this, the saved MAC keys |
| DataLayout.CreatedSays | OTRL/proto.c:483-643 | A message is refused exactly before a session exists; otherwise a reader of all its octets, apart from the one of the program, finds both instance tags, flags, key numbers, key and counter of the context, a right MAC and every saved octet |
| DataLayout.TagsOfCreated | OTRL/proto.c:449-477 | What `otrl_proto_instance` reads from the text of a created version 3 message is (our instance, their instance), and the text starts with the mark of a data message |
| DataLayout.AcceptsExactly | OTRL/proto.c:709-894 | Any octets: invalid when they do not parse; otherwise accepted exactly when both keys named are held, the MAC is that of their session and the counter is above the last one, and then decrypted with that session |
| DataLayout.SessionOctets | OTRL/dh.c:124-220 | Each session key as a hash of octets: the tag 1, 2 or 255, four octets of length, the digits of the shared secret; the end with the larger public key sends under 1 |
| DataState.AcceptedMoves | OTRL/proto.c:808-868 | What a message leaves, field by field: refused, nothing but the mark of a MAC key that verified an old counter; accepted, the keys, numbers, four sessions and the MAC keys due in order, for each of the four cases of newest and older keys |
| Wire.IntOctets | OTRL/serial.h:49-72 | An integer is written as, and read from, exactly the four octets that spell it, the most significant first |
| Wire.MpiIs | OTRL/serial.h:57-66 | The digits of an MPI are the only string that spells the number and does not start with a zero octet |
| ConnContext.ConnContextPriv.constructor | OTRL/context_priv.c:32-64 | A new context is the blank state |
| ConnContext.ConnContextPriv.RevealMacKeys | OTRL/proto.c:104-144 | The buffer grows by the used keys of the two sessions, in order, and by nothing else |
| ConnContext.ConnContextPriv.MoveKeys | OTRL/proto.c:122-141 | Keys land at 20 times the running count, behind what was there |
| ConnContext.ConnContextPriv.RotateDhKeys | OTRL/proto.c:148-192 | The in-place rotation of our keys computes the rotated state |
| ConnContext.ConnContextPriv.RotateYKeys | OTRL/proto.c:196-233 | The in-place rotation of their keys computes the rotated state |
| ConnContext.ConnContextPriv.Create | OTRL/proto.c:483-643 | A data message is built, or refused before a session exists, and the state moves as the specification says |
| ConnContext.ConnContextPriv.Accept | OTRL/proto.c:709-894 | Any octets are accepted or refused, and the state moves, as the specification says |
| ConnContext.ConnContextPriv.Rotate | OTRL/proto.c:858-868 | After an accepted message, our key rotates when the newest was used and theirs when their newest was used |
| ConnContext.ConnContextPriv.GoPrivate | OTRL/message.c:519-631 | Taking over a finished key exchange |
| Counters.IncCtr | OTRL/dh.c:458-463 | In place, the first n octets become the next big-endian number, the rest stay |
| Counters.CmpCtr | OTRL/dh.c:468-476 | Comparing eight octets compares the numbers they spell |
| Counters.IncBeValue | OTRL/dh.c:458-463 | Incrementing octets adds one to the number, modulo the width |
| Counters.DecIncBe | libgcrypt/libgcrypt/cipher/cipher-aeswrap.c:179-185 | The decrement of the unwrap loop undoes the increment of the wrap loop, wrap-around included |
| Dh.SessionMirror | OTRL/dh.c:124-220 | One end's sending keys are the other's receiving keys exactly when the public keys differ (or both directions derive the same key) |
| Dh.CtrInvolution | OTRL/proto.c:577-584 | Decrypting with the same key and counter gives the text back |
| DataMessage.ParseAssembled | OTRL/proto.c:525-613 | A message as assembled, revealed keys included, parses back to its fields, its authenticated part and its MAC |
| Tlv.ParseSerialized | OTRL/tlv.c:44-97 | Parsing what was serialized gives the chain back |
| Tlv.ParsedWellFormed | OTRL/tlv.c:44-59 | Whatever octets are parsed, every record fits its length field |
| Wire.RecordOctets | OTRL/tlv.c:85-97 | The octets of a chain: two of type, two of length, the more significant first, the value, then the rest; and of the text, a zero octet and the chain behind it |
| Wire.ParsedRecords | OTRL/tlv.c:44-59 | A chain followed by octets that hold no whole record is read as that chain |
| Wire.EveryString | OTRL/tlv.c:44-59 | Every string of octets is such a chain and such a rest, so parsing is determined on all inputs |
| Tlv.ParseTlvs | OTRL/tlv.c:44-59 | The parsing loop computes the specified chain |
| Tlv.SerialLen | OTRL/tlv.c:73-81 | The computed length is the length of the serialization |
| Tlv.PayloadRoundTrip | OTRL/proto.c:870-880 | Text up to the first zero octet and the records behind it come back as they were put in |
| Tlv.FindNul | OTRL/proto.c:870-880 | The scan finds the first zero octet, or the end |
| Smp.OtrlSMState.constructor | OTRL/sm.c:112-130 | A new state machine state |
| Smp.OtrlSMState.DoStep1 | OTRL/sm.c:632-667 | Alice's first step: state and message octets |
| Smp.OtrlSMState.DoStep2a | OTRL/sm.c:672-725 | Bob takes message 1 or calls it cheating |
| Smp.OtrlSMState.DoStep2b | OTRL/sm.c:730-781 | Bob's message 2 |
| Smp.OtrlSMState.DoStep3 | OTRL/sm.c:786-874 | Alice takes message 2 and makes message 3, or calls it cheating |
| Smp.OtrlSMState.DoStep4 | OTRL/sm.c:879-954 | Bob's verdict and message 4 |
| Smp.OtrlSMState.DoStep5 | OTRL/sm.c:959-998 | Alice's verdict |
| SmpProofs.HonestRunDecides | OTRL/sm.c:632-998 | In every honest run, through the octets on the wire: it is rejected only when a range check fails on a message sent; otherwise both verdicts are the same, and are success exactly when the secrets are equal |
| SmpSteps.Step1Starts | OTRL/sm.c:632-667 | A state is set up only if it never was; what message 1 holds, with responses that add up with challenge times secret to the random exponent; nothing else changes |
| SmpSteps.Step2aTakes | OTRL/sm.c:672-718 | For every state and all octets, message 1 is taken if and only if they read as six numbers, the range bounds hold and both proofs of a logarithm open to their challenges; otherwise the state is cheated |
| SmpSteps.Step2bPicks | OTRL/sm.c:730-777 | Answering message 1 stores the secret, P = g3^r and Q = g1^r g2^secret, and sends these |
| SmpSteps.Step3Takes | OTRL/sm.c:786-869 | Message 2 is answered if and only if eleven numbers are read, in range, with both logarithms and the coordinates of P and Q proved; otherwise the state is cheated |
| SmpSteps.Step4Takes | OTRL/sm.c:879-953 | Message 3 gets a verdict and an answer if and only if eight numbers are read, in range, with the coordinates and the equal logarithms proved; the verdict is the comparison of R^x3 with the quotient of the two P |
| SmpSteps.Step5Takes | OTRL/sm.c:959-998 | Message 4 gets a verdict if and only if three numbers are read, in range, and the pair recomputed from the proof hashes to its challenge; otherwise the state is cheated |
| SmpSteps.Step2aProves | OTRL/sm.c:672-718 | Two messages 1 with one first element, taken with one commitment under different challenges, give the exponent of the element up to its sign |
| SmpSteps.Step5Proves | OTRL/sm.c:959-998 | Two messages 4 with one element that got a verdict, with one commitment under different challenges: it is the quotient of the two Q to the exponent of Bob's third generator, up to signs |
| SmpProofs.KnowLogComplete | OTRL/sm.c:431-474 | An honest proof of knowing a logarithm is accepted |
| SmpProofs.EqualCoordsComplete | OTRL/sm.c:477-553 | An honest proof about P and Q is accepted |
| SmpProofs.EqualLogsComplete | OTRL/sm.c:556-623 | An honest proof about R is accepted |
| SmpProofs.VerdictExponents | OTRL/sm.c:930-948 | The comparison of Rab with Pa/Pb holds exactly when the secrets are equal |
| SmpChecks.KnowLogOnly | OTRL/sm.c:431-474 | For every hash: the check accepts a response to an honest commitment if and only if it is the one the prover computes, or it opens to another commitment with the same hash |
| SmpChecks.EqualLogsOnly | OTRL/sm.c:556-623 | The same for the check of equal logarithms |
| SmpChecks.EqualCoordsOnly | OTRL/sm.c:477-553 | The same for the check of equal coordinates, both responses |
| SmpSound.KnowLogSound | OTRL/sm.c:450-474 | Special soundness, for any number y from 1 to p - 1: two accepted answers to one commitment under challenges that differ modulo q prove that y or its negative is g to the exponent (d' - d) / (c - c') modulo q |
| SmpSound.EqualLogsSound | OTRL/sm.c:582-623 | Two such answers prove one exponent for g3o over g1 and for r over qab, up to the signs of g3o and r |
| SmpSound.EqualCoordsSound | OTRL/sm.c:511-553 | Two such answers give exponents r and s with p = g3^r and q = g1^r g2^s, up to the signs of p and q |
| SmpSound.SignUnchecked | OTRL/sm.c:409-474 | The range check lets p - y through with y; the commitment recomputed is the same for both if and only if the challenge is even or the commitment is zero |
| SmpSound.NegativeNotMember | OTRL/sm.c:409-416 | The negative of a power of the generator is not a power of it |
| SmpSound.NegativeAccepted | OTRL/sm.c:431-474 | An honest proof for g^x is accepted for its negative, which is no power of g, if and only if its challenge is even or the hash collides |
| SmpSound.MemberExponent | OTRL/sm.c:450-474 | Of a power of g, the exponent that two answers give is its exponent |
| Serial.SerializeRoundTrip | OTRL/sm.c:327-405 | A serialized array of numbers reads back, and reads back as nothing when another count is expected |
| Serial.SerializeMpiArray | OTRL/sm.c:327-370 | The buffer filled by the cursor holds exactly the serialization |
| Serial.UnserializeMpiArray | OTRL/sm.c:372-405 | The reading loop computes the specified result, malformed input included |
| Wire.ArrayOctets | OTRL/sm.c:327-370 | The octets of an array: four of count, then each number behind four octets of length, in order |
| Group.GelEqual | OTRL/sm.c:930-948 | Two powers of the generator are equal exactly when the exponents agree modulo q: what the comparison of the two elements decides |
| Group.GelInv | OTRL/sm.c:838-852 | The modular inverse of a power of the generator is the power with the opposite exponent |
| ModArith.InvmUnique | OTRL/sm.c:838-852 | The inverse by the extended Euclidean algorithm is the only one |
| Ake.ExchangeCompletes | OTRL/auth.c:144-1181 | From every state of the responder that answers the commitment, when the four messages arrive in turn, both ends finish on the same two public keys and session id, with opposite halves and each with the other's key number |
| AkeExact.RevealTakes | OTRL/auth.c:902-1073 | What becomes of a Reveal Signature Message in every state, its answer and the state left: ignored when none is awaited or the commitment decrypted with its r has another hash than was committed to; refused when it holds no single number in range, or the authenticator does not vouch for it; otherwise the exchange is finished |
| AkeExact.CommitmentOpened | OTRL/auth.c:902-1073 | In every run of any network: a context that finishes on a Reveal Signature Message was delivered before a commitment which the revealed r opens to exactly the peer's key it finishes with |
| AkeExact.SignatureTakes | OTRL/auth.c:1081-1181 | The same for a Signature Message: finished exactly when one is awaited, the stream was not used before and the authenticator vouches for the peer's key |
| AkeExact.KeyTakes | OTRL/auth.c:797-893 | A D-H Key Message is answered, revealing the r committed to, exactly when awaited, in the version asked for and in range; and again for the same key |
| AkeExact.CommitTakes | OTRL/auth.c:298-424 | A commitment with a hash of 32 octets is always answered: with our own when that is the greater number and we are no master, with the key sent before, or with a fresh key after everything else was forgotten |
| AkeExact.StartCommits | OTRL/auth.c:144-245 | Starting forgets all that was held, and the commitment sent opens to the key under the r kept |
| AkeExact.GreaterNumber | OTRL/auth.c:371-390 | Comparing the octets of two hashes compares the numbers they spell |
| Ake.AnswersExactly | OTRL/auth.c:298-424 | The initiator gets on to the third message exactly when the responder did not win the tie-break and, if it had sent its key before, did so in the same version |
| Ake.HeldKept | OTRL/auth.c:298-1181 | A context waiting for a reply keeps the message it would send again, whatever it is handed |
| Ake.CrossedCommits | OTRL/auth.c:369-402 | When two contexts that are not masters start at once, exactly one commitment is answered, by the end whose hash is smaller, and the other end is left as it was |
| AkeRuns.Agreement | OTRL/auth.c:1081-1181 | Whenever a context finishes on a Signature Message from an honest peer, that peer finished before on a Reveal Signature Message with the same two DH keys and session id, the other half, and each holds the number the other signed |
| AkeRuns.RevealAgreement | OTRL/auth.c:902-1073 | A context that finishes on a Reveal Signature Message under an honest DH key names the party that generated that key as initiator, and its key number |
| AkeRuns.RunInv | OTRL/auth.c:298-1181 | The invariant of the whole world holds after every allowed run |
| AkeRuns.ReplayPlausible | OTRL/auth.c:298-1181 | Dropping, repeating and reordering are among what the network may do |
| AuthInfo.OtrlAuthInfo.constructor | OTRL/auth.c:73-99 | A new authentication state |
| AuthInfo.OtrlAuthInfo.Reset | OTRL/auth.c:104-139 | Clearing forgets everything but the bold half |
| AuthInfo.OtrlAuthInfo.Start | OTRL/auth.c:144-246 | Starting an exchange: the commitment and the awaited state |
| AuthInfo.OtrlAuthInfo.OnCommit | OTRL/auth.c:298-424 | A D-H Commit Message in every state, the tie-break included |
| AuthInfo.OtrlAuthInfo.OnKey | OTRL/auth.c:797-893 | A D-H Key Message in every state |
| AuthInfo.OtrlAuthInfo.CheckAuth | OTRL/auth.c:533-639 | Checking an authenticator, and what it leaves in the state when it fails: the fingerprint is stored once the public key was read |
| AuthInfo.OtrlAuthInfo.OnRevealsig | OTRL/auth.c:902-1073 | A Reveal Signature Message in every state; r is overwritten in all of them |
| AuthInfo.OtrlAuthInfo.OnSignature | OTRL/auth.c:1081-1181 | A Signature Message in every state |
| CamelliaCode.CodeIsCipher | libgcrypt/libgcrypt/cipher/camellia.c:489-610 | For any number of groups and any round function: the code's schedule and rounds compute the cipher as defined in section 2.3 of RFC 3713 |
| CamelliaCode.DecryptInverts | libgcrypt/libgcrypt/cipher/camellia.c:972-1071 | Decryption with the stored subkeys inverts encryption |
| CamelliaCode.GroupsMasked | libgcrypt/libgcrypt/cipher/camellia.c:489-545 | Absorbing kw2 and kw4 runs the cipher on a masked state, the masks passing through every FL layer |
| CamelliaCode.GroupsMove | libgcrypt/libgcrypt/cipher/camellia.c:546-610 | Adding the key at the end of the round runs the cipher on a state masked by the next keys |
| CamelliaRound.OpsLawful | libgcrypt/libgcrypt/cipher/camellia.c:127-142 | FL and its inverse, as computed, are affine with the mask the key schedule uses, and inverse to each other |
| CamelliaRound.LookupIsRound | libgcrypt/libgcrypt/cipher/camellia.c:144-171 | The round by table lookups and rotations is the S-function followed by the P-function |
| CamelliaRound.FLInverse | libgcrypt/libgcrypt/cipher/camellia.c:127-142 | The two FL functions invert each other for every key |
| CamelliaSetup.CodeEncrypts | libgcrypt/libgcrypt/cipher/camellia.c:871-969 | With the stored subkeys, the code is the cipher of RFC 3713, for every S-box |
| CamelliaSetup.CodeDecrypts | libgcrypt/libgcrypt/cipher/camellia.c:972-1071 | The code's decryption inverts the cipher of RFC 3713 |
| CamelliaSetup.Camellia128 | libgcrypt/libgcrypt/cipher/camellia.c:439-1071 | Setup and in-place encryption of a block give the RFC 3713 ciphertext, which decrypts to the block |
| CamelliaSetup.Camellia256 | libgcrypt/libgcrypt/cipher/camellia.c:612-1331 | The same for 256-bit keys |
| CamelliaKnown.Answer128 | libgcrypt/libgcrypt/cipher/camellia-glue.c:592-632 | With SBOX1 as in the table, the cipher gives the known answer for the 128-bit key of the self-test, which fixes every constant, rotation and order of octets |
| CamelliaKnown.Answer256 | libgcrypt/libgcrypt/cipher/camellia-glue.c:617-651 | The same for the 256-bit key |
| CamelliaSetup.Setup128 | libgcrypt/libgcrypt/cipher/camellia.c:439-610 | The stored subkeys are the absorbed and moved form of the schedule of section 2.2 of RFC 3713 |
| CamelliaSetup.Setup256 | libgcrypt/libgcrypt/cipher/camellia.c:612-846 | The same for 256-bit keys |
| CamelliaSetup.Setup192 | libgcrypt/libgcrypt/cipher/camellia.c:848-868 | A 192-bit key is a 256-bit key whose last quarter is the complement of the third |
| CamelliaSetup.Subkeys128 | libgcrypt/libgcrypt/cipher/camellia.c:446-488 | The chain of rotations of KL and KA yields the subkeys of the specification |
| CamelliaSetup.Subkeys256 | libgcrypt/libgcrypt/cipher/camellia.c:620-709 | The chain of rotations of KL, KR, KA and KB yields the subkeys of the specification |
| CamelliaSetup.MakeKa128 | libgcrypt/libgcrypt/cipher/camellia.c:456-470 | KA as computed with the shortcut for an absent KR is the KA of section 2.2 of RFC 3713 |
| CamelliaSetup.MakeKa256 | libgcrypt/libgcrypt/cipher/camellia.c:648-668 | KA as computed is the KA of section 2.2 of RFC 3713 |
| CamelliaSetup.AbsorbKw2 | libgcrypt/libgcrypt/cipher/camellia.c:489-513 | In place, every second key takes the mask of kw2, and the mask passes each FL layer |
| CamelliaSetup.AbsorbKw4 | libgcrypt/libgcrypt/cipher/camellia.c:515-545 | In place, from the end, every first key takes the mask of kw4 |
| CamelliaSetup.MoveKeys | libgcrypt/libgcrypt/cipher/camellia.c:546-610 | The array of subkeys with the key addition moved to the end of the round |
| CamelliaSetup.EncryptInPlace | libgcrypt/libgcrypt/cipher/camellia.c:871-969 | The in-place rounds compute the specified block |
| CamelliaSetup.DecryptInPlace | libgcrypt/libgcrypt/cipher/camellia.c:972-1071 | The in-place backward rounds compute the specified block |
| CamelliaKeys.ChainLeft128 | libgcrypt/libgcrypt/cipher/camellia.c:446-455 | The successive rotations of KL by 15, 30, 15, 17, 17 and 17 bits are rotations of the key by 15, 45, 60, 77, 94 and 111 |
| CamelliaKeys.ChainA256 | libgcrypt/libgcrypt/cipher/camellia.c:669-690 | Rotating KA by 15, 30 and 49 bits, and the swap of words in between, give its rotations by 15, 45, 77 and 94 |
| Gf.ProductCommutes | libgcrypt/libgcrypt/cipher/cipher-gcm.c:301-345 | Multiplication by shifting and adding commutes, though its two operands play different parts |
| Gf.HornerPiece | libgcrypt/libgcrypt/cipher/cipher-gcm.c:222-279 | A product splits at any bit: the first bits, plus the shifted product of the rest |
| Gf.MulMul | libgcrypt/libgcrypt/cipher/cipher-gcm.c:301-345 | Multiplying by two bit strings gives the same in either order |
| GcmTable.TableLinear | libgcrypt/libgcrypt/cipher/cipher-gcm.c:34-68 | All 256 entries of the reduction table are sums of the contributions of the single bits of their index |
| Ghash.TableRed8 | libgcrypt/libgcrypt/cipher/cipher-gcm.c:222-279 | A table entry, moved up 16 bits, is what eight bits pushed out come back as |
| Ghash.TableRed4 | libgcrypt/libgcrypt/cipher/cipher-gcm.c:222-279 | The same for four bits |
| Ghash.Shifts8 | libgcrypt/libgcrypt/cipher/cipher-gcm.c:222-279 | Eight single shifts with reduction are one shift by eight with one reduction |
| Ghash.LoadSpells | libgcrypt/libgcrypt/cipher/cipher-gcm.c:287-345 | The words loaded from sixteen octets are the element whose bits those octets spell |
| Ghash.FormsAgree | libgcrypt/libgcrypt/cipher/cipher-gcm.c:287-345 | Running through the bits of the block over H gives what running through the bits of H over the block gives |
| GhashCode.FillM | libgcrypt/libgcrypt/cipher/cipher-gcm.c:186-219 | Entry n of the table is H times the four bits of n |
| GhashCode.GhashTable | libgcrypt/libgcrypt/cipher/cipher-gcm.c:222-279 | The table form replaces the hash by (hash xor block) times H |
| GhashCode.GhashBits | libgcrypt/libgcrypt/cipher/cipher-gcm.c:301-345 | The bit-by-bit form replaces the hash by the same product |
| Ghash64.ShiftSplit | libgcrypt/libgcrypt/cipher/cipher-gcm.c:71-82 | The shift on two 64-bit words is the shift on the four 32-bit words they hold |
| Ghash64.EightSplit | libgcrypt/libgcrypt/cipher/cipher-gcm.c:148-151 | Eight bits moved down two 64-bit words, with the table of reductions, is the same on four words |
| Ghash64.MulSplit | libgcrypt/libgcrypt/cipher/cipher-gcm.c:71-82 | Products on two words are products on four, for all bits and elements |
| Ghash64.FillM64 | libgcrypt/libgcrypt/cipher/cipher-gcm.c:85-110 | Entry n of the 64-bit table holds H times the four bits of n |
| Ghash64.GhashTable64 | libgcrypt/libgcrypt/cipher/cipher-gcm.c:112-165 | The 64-bit loop, which takes nibbles off the ends of two words, replaces the hash by (hash xor block) times H |
| CbcCode.Encrypt | libgcrypt/libgcrypt/cipher/cipher-cbc.c:36-123 | In place or not: the error for every length, otherwise the output is the ciphertext of the mode, what lies behind it stays, and the chaining value is the last block written |
| CbcBack.Decrypt | libgcrypt/libgcrypt/cipher/cipher-cbc.c:126-206 | The same for decryption, which overwrites no block before it is read |
| CbcBack.DecryptionInverts | libgcrypt/libgcrypt/cipher/cipher-cbc.c:126-206 | For every admissible length, with stealing or not, decrypting the ciphertext gives the plaintext |
| CbcBack.ThereAndBack | libgcrypt/libgcrypt/cipher/cipher-cbc.c:36-206 | One buffer, encrypted and decrypted in place from the same chaining value, is what it was, for every length; exactly the admissible lengths are taken |
| CbcBack.ValuesAgree | libgcrypt/libgcrypt/cipher/cipher-cbc.c:92-117 | Both directions leave the same chaining value if and only if nothing is stolen or the last block, filled up with zeros, is the xor of the block before it, the chaining value of that, and its ciphertext |
| CbcBack.ValuesDisagree | libgcrypt/libgcrypt/cipher/cipher-cbc.c:177-200 | Under every cipher: of two messages that steal and differ in the last block alone, one at least leaves different chaining values |
| CbcBack.ZerosOrNot | libgcrypt/libgcrypt/cipher/cipher-cbc.c:177-200 | Two blocks of zeros, or these with another octet at the end, leave different chaining values |
| Cbc.StealIsChain | libgcrypt/libgcrypt/cipher/cipher-cbc.c:92-117 | The stealing loop computes plain chaining of the message padded with zeros, the last two blocks exchanged and the stolen one cut |
| Cbc.ChainIs | libgcrypt/libgcrypt/cipher/cipher-cbc.c:71-90 | A string is the ciphertext if and only if each block of it is what enciphering gives of the block of data xored with the block before, or the initial value |
| Cbc.UnstealSteal | libgcrypt/libgcrypt/cipher/cipher-cbc.c:177-200 | The two decryptions of the tail give back both blocks |
| Cbc.UnchainChain | libgcrypt/libgcrypt/cipher/cipher-cbc.c:162-175 | Undoing the chain gives the plaintext back, block by block |
| CbcLengths.KeptUnique | libgcrypt/libgcrypt/cipher/cipher-cbc.c:148-154 | The number of blocks before the last two is the one with room for a full and a non-empty block |
| BlockCipher.OctetsLawful | libgcrypt/libgcrypt/cipher/bufhelp.h:89-122 | Octets with bitwise exclusive or meet the conditions the modes are proved under |
| KeyWrap.Wrap | libgcrypt/libgcrypt/cipher/cipher-aeswrap.c:37-114 | The error for every length and block size, otherwise the output is the wrap of what memmove read, and what lies behind it stays |
| KeyWrap.Unwrap | libgcrypt/libgcrypt/cipher/cipher-aeswrap.c:119-211 | The error for every length and block size; success, in place or not, with key data of which the input is the wrap; a checksum error only when it is the wrap of nothing |
| KeyWrap.WrapThenUnwrap | libgcrypt/libgcrypt/cipher/cipher-aeswrap.c:37-211 | For two registers and more, unwrapping what wrapping wrote succeeds and returns the key data |
| KeyWrap.WrapUnique | libgcrypt/libgcrypt/cipher/cipher-aeswrap.c:37-211 | Key data has one wrap, and a wrap is of one key data |
| KeyWrap.UnwrapInverts | libgcrypt/libgcrypt/cipher/cipher-aeswrap.c:170-191 | The steps run backwards undo the steps run forwards, from any state of the registers |
| KeyWrap.TraceInBuffer | libgcrypt/libgcrypt/cipher/cipher-aeswrap.c:79-106 | The steps on the output buffer are the steps of section 2.2.1 of RFC 3394 on the registers in it |
| KeyWrapShift.WrapByMoving | libgcrypt/libgcrypt/cipher/cipher-aeswrap.c:79-106 | A string is the wrap if and only if it is what the other form of section 2.2.1 of RFC 3394 ends with, where the registers move on by one at each of the 6n steps |
| KeyWrapShift.RegistersAndStart | libgcrypt/libgcrypt/cipher/cipher-aeswrap.c:65-77 | Register k is octets 8k to 8k + 7, and without an initial value of the caller's it is eight octets A6 |
| KeyWrap.InPlace | libgcrypt/libgcrypt/cipher/cipher-aeswrap.c:71-77 | Wrapping in place wraps the right data if and only if it starts with the initial value |
| KeyWrap.ZerosInPlace | libgcrypt/libgcrypt/cipher/cipher-aeswrap.c:71-77 | An input that is wrapped wrongly in place under every cipher |
| Stream.AnyCutting | libgcrypt/libgcrypt/cipher/cipher-cfb.c:35-227 | However the data and its ciphertext are cut into calls: the ciphertext is that of one call, it decrypts to the data, and both ends are left in the same state; for CFB and CTR over any block cipher |
| Stream.CallsAreOne | libgcrypt/libgcrypt/cipher/cipher-ctr.c:35-112 | A run of calls does what one call on the joined data does |
| Stream.CryptBack | libgcrypt/libgcrypt/cipher/cipher-cfb.c:132-227 | Decryption recovers the data and follows the same states |
| StreamCode.Cfb | libgcrypt/libgcrypt/cipher/cipher-cfb.c:35-227 | In place or not, the leftover mask, the whole blocks and the last part together encrypt or decrypt octet by octet as the mode says, and leave its state in the handle |
| StreamCode.Ctr | libgcrypt/libgcrypt/cipher/cipher-ctr.c:35-112 | The same for CTR: the keystream left over from the last call, then block by block with the counter counted on |
| StreamBlocks.CtrIsText | libgcrypt/libgcrypt/cipher/cipher-ctr.c:35-112 | From any counter the text is that of section 6.5 of NIST SP 800-38A: block k under the enciphered number above the start by k |
| StreamBlocks.CfbIsText | libgcrypt/libgcrypt/cipher/cipher-cfb.c:35-227 | In both directions the text is that of section 6.3: each block under the enciphered ciphertext block before it |
| Mac.AnyCutting | libgcrypt/libgcrypt/cipher/cipher-cmac.c:37-171 | However the message is cut into calls, the last step gives the one-shot value over blocks, the last one treated apart (section 6.2 of NIST SP 800-38B) |
| Mac.FeedIsOneShot | libgcrypt/libgcrypt/cipher/cipher-cmac.c:37-97 | Holding the last block back is the same as going through the whole message block by block |
| Mac.PaddedCutting | libgcrypt/libgcrypt/cipher/cipher-ccm.c:42-112 | However a padded part of the message is cut into calls, the last of which pads, the result is that of the definition on the whole, and the next part starts afresh |
| Mac.TwoParts | libgcrypt/libgcrypt/cipher/cipher-ccm.c:42-112 | Two padded parts in turn, each cut in any way, give the value of the one string made of their whole blocks |
| Mac.NormFeed | libgcrypt/libgcrypt/cipher/cipher-ccm.c:57-106 | Whether a full block waits or was mixed in makes no difference to any later result |
| MacCode.DoCbcMac | libgcrypt/libgcrypt/cipher/cipher-ccm.c:42-112 | The loop with its buffer computes the specified value, with padding and without, from any fill of the buffer |
| GcmBuffer.DoGhashBuf | libgcrypt/libgcrypt/cipher/cipher-gcm.c:809-867 | The buffering loop with the tables feeds GHASH any octets from any fill, and fills up with zeros when it pads |
| GcmBuffer.GhashIsZeroMac | libgcrypt/libgcrypt/cipher/cipher-gcm.c:809-867 | What the buffering computes of a padded part is GHASH of it, block by block (section 6.4 of NIST SP 800-38D) |
| GcmBuffer.AnyCuttingOfParts | libgcrypt/libgcrypt/cipher/cipher-gcm.c:809-867 | Additional data and ciphertext, each cut into calls in any way and padded: the hash is GHASH of the one string of whole blocks |
| GcmBuffer.HashIs | libgcrypt/libgcrypt/cipher/cipher-gcm.c:222-279 | Multiplication by H is a function on blocks the buffering may use: mixing is one step of GHASH |
| MacCode.CmacHandle.Write | libgcrypt/libgcrypt/cipher/cipher-cmac.c:37-97 | Any octets are taken in exactly, the last block, full or not, staying behind |
| MacCode.CmacHandle.Authenticate | libgcrypt/libgcrypt/cipher/cipher-cmac.c:199-215 | Octets are taken in exactly, or refused once the tag is worked out or for other block sizes than 8 and 16 |
| MacCode.CmacHandle.Finish | libgcrypt/libgcrypt/cipher/cipher-cmac.c:145-171 | K1 on a full last block, K2 on one marked and filled up |
| MacCode.CmacHandle.GetTag | libgcrypt/libgcrypt/cipher/cipher-cmac.c:174-223 | The tag is worked out once; asking again gives the same |
| MacCode.CmacHandle.CheckTag | libgcrypt/libgcrypt/cipher/cipher-cmac.c:174-230 | A tag of an allowed length is accepted if and only if it is the start of the right one |
| MacCode.ShiftedDoubles | libgcrypt/libgcrypt/cipher/cipher-cmac.c:123-137 | The loop over octets with its carry shifts the big-endian number by one bit |
| CmacField.TimesX128 | libgcrypt/libgcrypt/cipher/cipher-cmac.c:120-137 | For blocks of 16 octets a subkey is the product by x of the one before it, modulo x^128 + x^7 + x^2 + x + 1, as a polynomial whose coefficients are the bits of the number |
| CmacField.TimesX64 | libgcrypt/libgcrypt/cipher/cipher-cmac.c:120-137 | For blocks of 8 octets the same, modulo x^64 + x^4 + x^3 + x + 1 |
| CmacField.TagOf | libgcrypt/libgcrypt/cipher/cipher-cmac.c:37-171 | The tag of a message in any calls: its blocks enciphered in a chain, the last one xored with K1 if full, and otherwise filled up with a one bit and zeros and xored with K2 |
| CmacField.PaddedIsChain | libgcrypt/libgcrypt/cipher/cipher-ccm.c:42-112 | The value of a padded part is the chain over the blocks of the data filled up with zeros by less than a block |
| Fragment.OnlyComplete | OTRL/proto.c:897-989 | In every run of messages, with loss, repetition, reordering and junk: a message is called complete only when the readable fragments since some message are the pieces 1 to n in order and nothing else; between calls k < n or both are 0 |
| FragmentExact.CompleteExactly | OTRL/proto.c:897-989 | After any messages: called unfragmented if and only if no fragment; complete if and only if all readable fragments from some message on are the pieces 1 to n of n, the last message being piece n, and then with their text; something is held if and only if the first pieces of a message wait for the rest, and it is their text |
| FragmentExact.ReadableFragment | OTRL/proto.c:905-921 | A readable fragment has 0 < k <= n < 65536 and a text that is not empty and has no comma |
| FragmentExact.NumberRead | OTRL/proto.c:905-909 | A number in a header may follow spaces and one sign, and is taken modulo 2^16 |
| FragmentExact.NumberOnly | OTRL/proto.c:905-909 | Nothing else is read as a number |
| FragmentExact.TagsOfFragment | OTRL/message.c:996-998 | From each fragment of a version 3 context the recipient reads the sender's instance and its own |
| FragmentExact.NumbersPrinted | OTRL/proto.c:1043-1057 | Numbers are printed in five decimal digits, tags in eight hexadecimal digits in lower case, and spell what was printed |
| Fragment.ReassembledExactly | OTRL/proto.c:992-1068 | For every message without commas (and, without tags, without bars) and every size above the header giving at most 65535 pieces: feeding the created fragments in order returns the message with the last and nothing before, exactly when the header reckoned with is the one printed |
| Fragment.FragmentsFit | OTRL/message.c:89-102 | No fragment is longer than the largest message allowed |
| Fragment.FragmentCreate | OTRL/proto.c:992-1068 | The loop fills the array with the specified fragments for every largest message, the difference to the header length cast as in the source, or refuses counts outside 1 to 65535 |
| Fragment.BelowHeader | OTRL/message.c:90-99 | With a largest message below the header length, the count asked for is accepted if and only if the message is no longer than what is missing, and then it goes whole into one fragment |
| Fragment.FragmentBuffer.OnMessage | OTRL/proto.c:897-989 | The accumulator moves as specified on any message |
| Fragment.Unreadable | OTRL/proto.c:1049-1057 | A fragment with tags, cut where snprintf stops in a context that reckons without them, cannot be read |
| Fragment.ReadShown | OTRL/proto.c:905-921 | What sscanf reads from a created fragment is the piece it was made from |
| Base64.DecodedEncoded | OTRL/b64.c:81-189 | Decoding what was encoded gives the octets back, for every length |
| Base64.OctetsDecoded | OTRL/b64.c:155-189 | Any text: three octets for every four letters before the first equals sign; the letters over make one octet less than they are, and only if an equals sign follows |
| Base64.Alphabet | OTRL/b64.c:68-73 | Both tables are the alphabet of section 4 of RFC 4648 |
| Base64.BlockSpells | OTRL/b64.c:124-145 | The octets of a block are the bits of its letters from the front; the bits over are lost |
| Base64.JunkAnywhere | OTRL/b64.c:155-189 | A character outside the alphabet, other than the equals sign, changes nothing wherever it is put |
| Base64.MeaningDecoded | OTRL/b64.c:155-189 | Any text decodes as what is left of it without the characters that mean nothing |
| Base64.OpenedEnvelope | OTRL/b64.c:196-267 | The envelope opens to what was put in, whatever follows it and whatever meaningless characters, any number of them, came in between |
| Base64.Decode | OTRL/b64.c:155-189 | The loop writes the specified octets and stays within the size promised, on any input |
| Instances.FindRecentSecureInstance | OTRL/context.c:197-247 | No instance beats the one returned in message state and trust, none of its level is more recent, the last of equally recent ones is taken, and it is at least as good as the one started from; of levels that do not compare, the one going through the list once leads to |
| Instances.BestFound | OTRL/context.c:197-247 | An instance at least as good as all others fixes the level of the result, from any start |
| Instances.StaysAtLevel | OTRL/context.c:215-236 | A call from an instance that nothing beats returns one of its level, so two such levels give two results |
| Instances.OneLevel | OTRL/context.c:197-247 | Calls from all starts return instances of one level if and only if some instance is at least as good as all others |
| ContextList.UserState.Find | OTRL/context.c:257-346 | The context returned is one of the names and instance asked for, exactly when there is one or one may be added; the list stays sorted and linked both ways, and differs by the new context alone; every context remains filed under a listed master exactly when a new instance had its master there |
| ContextList.KnownAtPlace | OTRL/context.c:267-288 | The search may stop at the place of the key: what stands there decides whether a context of the names and instance is in the list at all, and for the master it is the least of its names |
| ContextList.OrderIs | OTRL/context.c:267-288 | The order of the list is by user, account, protocol and instance, names compared at the first character in which they differ |
| ContextList.UserState.Link | OTRL/context.c:310-315 | A node put between two neighbours, or in front, extends the list at that place, with all pointers and back pointers right |
| ContextList.UserState.Unlink | OTRL/context.c:528-532 | A node taken out leaves the rest linked both ways |
| ContextList.MasteredInserted | OTRL/context.c:303-343 | An addition keeps each context filed under a listed master exactly when that holds of the new one |
| ContextList.UserState.Forget | OTRL/context.c:480-536 | Refused, and nothing changed, when the context or one of the run filed under it is not in plaintext; else just these are gone from the list |
| ContextList.GroupGone | OTRL/context.c:484-502 | Where each context is filed under its master, the run behind a master is all the other contexts of its names: what is left is the list without these names, and the states looked at are theirs |
| ContextList.UserState.ForgetGroup | OTRL/context.c:480-536 | On such a list, forgetting a master removes every context of its names if all are in plaintext, and nothing otherwise; each remaining context is still filed under a listed master |
| ContextList.ChildLeftBehind | OTRL/context.c:330-333 | For any two instances added without a master and the first then forgotten, the second is left filed under a context no longer in the list |

## Left out

- Allocation failures, wiping of secrets, files, private-key generation and the arithmetic of DSA signatures.
- The concrete MODP group of RFC 3526, SHA-1, SHA-256, HMAC, AES and SHA1-HMAC key lengths: parameters of the theorems.
- The SMP secret is assumed below q: `otrl_sm_step1` takes 32 hashed octets, far below the 1536-bit order.
- SmpSound.KnowLogSound: p is asked to be prime, as it is in RFC 3526; that a prover can be made to answer two challenges is a matter of probability and not part of this model.
- AkeRuns.Agreement: signatures of honest keys and MACs under the secret of two honest DH keys are assumed to come from messages honest parties made, and fresh DH keys to be unseen; an initiator completes only against such messages.
- Delivery.EveryDeliveryExact: a run is assumed short enough for no key number, counter or length of saved MAC keys to wrap; text is a C string and every TLV fits its length field, as the callers provide.
- The version 1 key exchange and its session id, and what is done with instance tags once they are read.
- Heartbeats, retransmission, the dispatch of SMP records inside a data message, and the other parts of `otrl_message_receiving`.
- Camellia's four tables of 256 words are the spreads of an S-box that is a parameter; its values are given in `CamelliaKnown` alone. The known answer for 192 bits is not part of this model. Key octets are taken as words, and the unrolled rounds are loops over an array of groups of six.
- The flag of CBC that keeps only the last block as a MAC, the bulk functions, and buffers that overlap without being the same.
- The step counter of the key wrap is the number 6n cut to eight octets; a length near 2^64 is not excluded, but no such buffer exists.
- OFB, the resynchronisation of CFB, the formatting of nonce and lengths in CCM and GCM, and GCM as a whole.
- ContextList.UserState.Find: the numbers for the best or most recent instance are not part of this model of the list, nor are the pointers to recent children; the choice of the best is in `Instances`.
- The fingerprints and application data freed with a context, and the pointer a context keeps to the one before it as the address of a field: it is a reference to that context, none for the root.
- Fragment: numbers in a header are cut to 16 bits as sscanf does; what sscanf does beyond the range of an unsigned long is not part of this model. Fragments are read in order as text without the terminating zero.
- Base64: the two tables are given by ranges, proved to be the alphabet.
- The forms of GHASH for processor instructions.
