# The headless client, modelled and proved

A Dafny 4.11 model of a Lineage 2 client: its packet framing over reused buffers, the two ciphers, the binary
parsers and encoders, the login conversation, and the game loop in which several goroutines share all of these.
`dafny verify dfyconfig.toml` checks everything.

## How the model is organised

| Files | What they hold |
|---|---|
| `Bytes`, `Sequences`, `WordRuns`, `Slices`, `WideStrings` | bytes, 32-bit words, exclusive or, Go slices as windows on shared arrays, UTF-16LE strings |
| `RollingXor`, `GameCrypt` | the game cipher as functions, and the object with its in-place loops |
| `Framing`, `Packet` | frames as values, and the reader and writer over their buffers |
| `Channel` | a link with frames in flight, and both endpoints with the key exchange |
| `Packets`, `ServerReader`, `Encoders`, `GameClient`, `Lobby` | the requests and their bytes, what lies where and a reader for it, the encoders, sending and receiving, the way into the world |
| `CharSelection`, `CharSelectionDecoder`, `CharSelected`, `ItemList` | the parsers, the grammars they read, and the serialisers |
| `LoginCipher`, `ServerCrypt`, `InitPacket`, `Rsa`, `LoginBlock`, `LoginClient` | the login side |
| `TargetRing`, `StatusUpdate`, `BotObject`, `Hearing` | the bot's targets, its mana and cooldowns, the handlers of the read loop, and what each serialised packet does to the bot |
| `GameLoop`, `GameLoopSafety`, `GameLoopDelivery`, `GameLoopPhases`, `GameLoopActs`, `GameLoopTeleports`, `GameLoopShutdown` | the interleaved game loop and what every run of it keeps |
| `Scenario` | the spawn check and the character names |

Code that changes things step by step is a method, with its loops and its aliasing, proved against a function;
what that function is good for is proved in lemmas, and where the wire, a key or a
table fixes the bytes, a lemma gives them as numbers, without that function. The game loop is a state machine. An event lets one party
(main goroutine, action loop, read loop, server, or the cancelling context) take its next step, and a run is any
sequence of events. Encoding, encrypting and writing a packet are three steps, the two flags of a teleport are
raised in two, and every load of a shared flag is a step of its own. What a random number generator, a clock, a
cooldown or the trigonometry of roaming decides comes with the event, so the theorems hold for every decision.

Assumptions: the server's game cipher has the same dynamic key as the client's; Blowfish is any permutation of
8-byte blocks given by its key; a stream delivers bytes in order; a connection takes a number of bytes and then
breaks, so that a write fails exactly when part of it was not taken. In the game loop
delivery is claimed for runs in which no write fails, because a failed write has already moved the outgoing key and Logout is still sent after it. Everything else
about the game loop holds with failed writes too.

## What the code does, where it differs from what one expects

- `decXorPass` lets sizes from 8 on through, but its unsigned position wraps below 12, and the first read then leaves
  the slice (`DecXorPass`).
- In a greeting of 176 bytes the pass key lies on the last byte of the Blowfish key (`InitComesThrough`).
- `DecodeCharSelected` asks for 36 bytes behind the title and reads 40 (`PanicsExactly`).
- `EncodeGSRequestMagicSkillUseTo` writes a flag byte and advances four, so three old bytes are sent.
- The `-stationary` flag is documented as disabling movement, and convergence as stopping it; without a known target
  the bot roams all the same (`BotWithoutTargetsRoams`). The exact condition is whether a target is known.
- Accounts beyond 14 and passwords beyond 16 bytes are silently damaged in the credentials block.
- The spawn check squares in 32 bits and accepts some spawns far away (`CheckIsExactUnlessWrapped`).
- After a packet without payload, the handshake reads an opcode that is not there (`LobbyPanicsExactly`).

## Model

| member | source | states |
|---|---|---|
| `RollingXor.DecryptUndoesEncrypt` | `internal/crypto/game_crypt.go:32-63` | For every key and every plaintext, decrypting what was encrypted under the same key gives the plaintext back |
| `RollingXor.EncryptUndoesDecrypt` | `internal/crypto/game_crypt.go:32-63` | And the other way round: the cipher is a bijection on packets of every length |
| `RollingXor.ChainClosedForm` | `internal/crypto/game_crypt.go:50-60` | The chained loop in closed form: ciphertext byte i is the exclusive or of all plaintext bytes and all repeated key bytes up to i |
| `RollingXor.Counter` | `internal/crypto/game_crypt.go:66-71` | The counter is the little-endian word at offsets 8 to 11, and key bytes and key determine each other |
| `RollingXor.InitialKeyBytes` | `internal/crypto/game_crypt.go:20-28` | The sixteen bytes of the first key, and its first counter, 0x019327c8 |
| `RollingXor.EncryptedByte` | `internal/crypto/game_crypt.go:55-59` | A ciphertext byte is the plaintext byte masked with its key byte and the ciphertext byte before it |
| `RollingXor.DecryptedByte` | `internal/crypto/game_crypt.go:37-42` | And a plaintext byte comes from the same three |
| `RollingXor.AdvanceAllTotal` | `internal/crypto/game_crypt.go:66-71` | After any sequence of packets the key differs from the first one by the total byte count, modulo 2^32, in that word alone |
| `GameCryptObject.GameCrypt.Init` | `internal/crypto/game_crypt.go:23-29` | Both key arrays become the first eight dynamic bytes followed by c8 27 93 01 a1 6c 31 97 |
| `GameCryptObject.GameCrypt.Encrypt` | `internal/crypto/game_crypt.go:50-63` | In place: exactly the slice becomes its cipher image, only the outgoing key advances, and an uninitialised object changes nothing |
| `GameCryptObject.GameCrypt.Decrypt` | `internal/crypto/game_crypt.go:32-47` | The same for the incoming direction |
| `GameCryptObject.UpdateKey` | `internal/crypto/game_crypt.go:66-71` | The packet length is added, modulo 2^32, to the little-endian word at offset 8 and the other twelve bytes stay, which is one Advance of the key |
| `RollingXor.AdvancedKeyBytes` | `internal/crypto/game_crypt.go:66-71` | The same of keys as values |
| `Framing.ReadFrameOfFrame` | `internal/net/packet.go:38-58` | A framed payload is read back whatever follows it, and exactly its own bytes are consumed |
| `Framing.FramePrefixIsIncomplete` | `internal/net/packet.go:38-58` | A frame cut short anywhere is neither a packet nor malformed |
| `Framing.FrameBytes` | `internal/net/packet.go:101-106` | At most 65533 bytes of payload, behind the two bytes of its length plus two |
| `PacketIO.Reader.Read` | `internal/net/packet.go:38-58` | Which packet, which error and which rest of the stream a read leaves, for every stream; the result lies in the reused buffer |
| `PacketIO.Writer.Prepare` | `internal/net/packet.go:91-97` | The payload area of the writer's own buffer, refused exactly when the packet would be too large |
| `PacketIO.Writer.Send` | `internal/net/packet.go:101-106` | Whatever the payload area holds is framed; how much of the frame is taken and whether the write fails follow from the room left; the payload area stays |
| `PacketIO.PushedBytes` | `internal/net/packet.go:101-106` | What a connection holds after a write: all it held, then as much of the data as there was room for |
| `PacketIO.Writer.Write` | `internal/net/packet.go:74-85` | The copying variant: nothing is sent of a packet that is too large, else the frame of the data |
| `Link.TransmitKeepsStep` | `internal/client/client.go:346-351` | A send keeps a link in step: the stream is the images of the packets in flight and the sender's key is the receiver's moved on by them |
| `Link.ReceiveDelivers` | `internal/client/client.go:353-361` | A receive keeps it in step and yields exactly the next packet sent, or waits when none is in flight; it never meets a malformed size |
| `Link.DrainDeliversAll` | `internal/client/client.go:353-361` | Reading on until the stream is dry yields everything sent and brings both keys together |
| `Channel.RunSynchronised` | `internal/client/client.go:366-399` | Every event of both endpoints, before, during and after the key exchange, keeps client and server synchronised |
| `Channel.KeyOfPacket` | `internal/net/protocol.go:314-325` | A key packet has 18 bytes or more behind opcode 0x2e; the keys of both directions are its bytes 2 to 9 and the eight constants |
| `Channel.ExactDelivery` | `internal/client/client.go:346-399` | In every interleaving of both endpoints each has received a prefix of what the other sent, byte for byte; once open, each sender's key is its receiver's advanced by the bytes in flight, and nothing sent is lost |
| `Packets.PayloadInjective` | `internal/net/protocol.go:435-751` | No two game packets share their bytes, so the server can tell every request from every other |
| `ServerReader.PayloadOnWire` | `internal/net/protocol.go:284-751` | Length, opcode, and the offset of every word, text, flag and constant of each of the seventeen game packets |
| `ServerReader.LoginPayloadOnWire` | `internal/net/protocol.go:141-282` | The same for the three requests to the login server |
| `ServerReader.ServerReadsPacket` | `internal/net/protocol.go:284-751` | A reader that knows opcodes and offsets only gets every packet back from its bytes, if and only if its text holds no NUL |
| `ServerReader.ServerReadsRequest` | `internal/net/protocol.go:141-282` | And every request to the login server |
| `Encoders.EncodeProtocolVersionTo` | `internal/net/protocol.go:284-288` | 5 bytes: 0x0e, then the version, whatever the buffer held before |
| `Encoders.EncodeAuthLoginTo` | `internal/net/protocol.go:291-311` | 0x2b, the account as a terminated wide string, then play key 2, play key 1, login key 1, login key 2, whatever the buffer held before |
| `Encoders.EncodeGSCharacterDeleteTo` | `internal/net/protocol.go:434-439` | 5 bytes: 0x0d, then the slot, whatever the buffer held before |
| `Encoders.EncodeGSCharacterRestoreTo` | `internal/net/protocol.go:441-446` | 5 bytes: 0x7b, then the slot, whatever the buffer held before |
| `Encoders.EncodeGSCharacterCreateTo` | `internal/net/protocol.go:448-497` | 0x0c, the name as a terminated wide string, then race, sex and class, six times 40, hair style, hair colour and face, whatever the buffer held before |
| `Encoders.EncodeGSCharacterSelectTo` | `internal/net/protocol.go:499-517` | 19 bytes: 0x12, the slot, fourteen zeros, whatever the buffer held before |
| `Encoders.EncodeGSMoveToLocationTo` | `internal/net/protocol.go:576-597` | 29 bytes: 0x0f, target, origin, and the word 1, whatever the buffer held before |
| `Encoders.EncodeGSValidatePositionTo` | `internal/net/protocol.go:599-616` | 21 bytes: 0x59, position, heading, and the word 0, whatever the buffer held before |
| `Encoders.EncodeGSRequestActionUseTo` | `internal/net/protocol.go:618-641` | 10 bytes: 0x56, the action, ctrl as a word, shift as a byte, whatever the buffer held before |
| `Encoders.EncodeGSUseItemTo` | `internal/net/protocol.go:643-659` | 9 bytes: 0x19, the object, ctrl as a word, whatever the buffer held before |
| `Encoders.EncodeGSActionTo` | `internal/net/protocol.go:661-676` | 18 bytes: 0x1f, the object, the origin, the action byte, whatever the buffer held before |
| `Encoders.EncodeGSAttackRequestTo` | `internal/net/protocol.go:678-693` | 18 bytes: 0x01, the object, the origin, the attack byte, whatever the buffer held before |
| `Encoders.EncodeGSEnterWorldTo` | `internal/net/protocol.go:721-729` | 105 bytes: 0x11 and zeros, whatever the buffer held before |
| `Encoders.EncodeGSSay2To` | `internal/net/protocol.go:731-751` | 0x49, the text as a terminated wide string, then the channel, whatever the buffer held before |
| `Encoders.EncodeGSAppearingTo` | `internal/net/protocol.go:866-870` | The byte 0x3a, whatever the buffer held before |
| `Encoders.EncodeGSRequestMagicSkillUseTo` | `internal/net/protocol.go:695-718` | 13 bytes: 0x39, the skill, ctrl as a word, shift as a byte, and bytes 10 to 12 as the buffer held them |
| `Encoders.EncodeAuthGGRequestTo` | `internal/net/protocol.go:141-149` | 25 bytes: 0x07, the session id, zeros, whatever the buffer held before |
| `Encoders.EncodeRequestServerListTo` | `internal/net/protocol.go:269-274` | 9 bytes: 0x05 and the two login keys, whatever the buffer held before |
| `Encoders.EncodeRequestServerLoginTo` | `internal/net/protocol.go:276-282` | 10 bytes: 0x02, the two login keys, the server id, whatever the buffer held before |
| `GameClient.Client.PayloadFitsRoom` | `internal/client/client.go:393-394` | Each request fits the room its sender prepares exactly when its string is short enough |
| `GameClient.Client.SendGS` | `internal/client/client.go:346-351` | Encrypted where it lies, once a key is exchanged, and framed from the same buffer: the connection is offered the frame of the image, and the key advances even if the write fails |
| `GameClient.Client.RecvGS` | `internal/client/client.go:353-361` | One frame off the stream, decrypted in the reader's buffer; on an error the key stays |
| `GameClient.Client.SendPacket` | `internal/client/client.go:655-662` | No stale bytes: wire and next key depend on the request and the key alone, and for MagicSkillUse on three leftover bytes; every field of the request lies at its place in what was encrypted |
| `Lobby.ReceiveKey` | `internal/client/client.go:379-390` | The key packet is read in the clear and initialises both directions, or the step is refused |
| `Lobby.HandshakeToLobby` | `internal/client/client.go:366-421` | Outcome with its reason, connection state and sent bytes are determined by the state, by what arrives and by how much the connection takes: version 140 in the clear, key, the credentials in their order under the key, login result, character list |
| `Lobby.LobbyRoundTrip` | `internal/client/client.go:366-421` | End to end through framing, cipher and parser: against a server that lists any characters the client enters with exactly these, its key and stream behind both packets |
| `Lobby.EnteredBy` | `internal/client/client.go:401-421` | Only a packet of opcode 0x0a followed by an accepted one of opcode 0x09 lets the client in, with the list the latter holds |
| `Lobby.ServerReadsOpening` | `internal/client/client.go:371-399` | The server reads back the version and the login packet, and the latter determines every credential |
| `Lobby.HandshakeIsReadBack` | `internal/client/client.go:371-399` | What a connection with room for the handshake's two packets has taken is read back as version and login, and nothing remains |
| `Lobby.LobbyPanicsExactly` | `internal/client/client.go:401-419` | On arbitrary bytes, the handshake reads an opcode that is not there exactly when the login result, or the packet after a right one, is an empty frame |
| `Lobby.AwaitSelected` | `internal/client/scenario.go:299-314` | Packets are skipped until the selected character arrives, which leaves key and stream behind it; the loop ends because each packet shortens the stream |
| `Lobby.AwaitedPassesOver` | `internal/client/scenario.go:299-314` | Whatever packets come first, the one of opcode 0x0b decides, and key and stream are left right behind it |
| `Lobby.SelectionRoundTrip` | `internal/client/scenario.go:299-314` | End to end: other packets, then a serialised selection, yield exactly its fields; cut short it selects nothing, and makes the decoder leave it exactly when at most four bytes are missing |
| `Lobby.SelectAndEnter` | `internal/client/scenario.go:284-324` | Outcome, sent bytes, both keys and the rest of the stream, all cases: selection and world entry under successive keys, the second only after the character arrived |
| `WideStrings.FindNulExact` | `internal/net/protocol.go:368-390` | The string scan stops at a position if and only if a whole-unit NUL-free text ends there |
| `CharSelectionDecoder.DecodeCharSelectionInfo` | `internal/net/protocol.go:343-432` | The decoder whose reads may silently fail accepts exactly what a parser accepts that insists on every field, with the same result |
| `CharSelection.AcceptedIsComplete` | `internal/net/protocol.go:355-431` | Accepted means complete: the list length is the announced count, and a non-empty list of n characters takes at least 18 + 419 n bytes |
| `CharSelection.RoundTrip` | `internal/net/protocol.go:347-432` | Every serialised list of entries, with any text and anything behind it, is parsed to its characters in order |
| `CharSelection.CharactersRoundTrip` | `internal/net/protocol.go:327-432` | Names, coordinates, levels, all 33 paperdoll slots, delete timers and class ids of any number of characters come back in order |
| `CharSelection.AcceptedIsSerialised` | `internal/net/protocol.go:347-432` | The converse: every accepted packet that announces characters is a serialised list followed by anything |
| `CharSelected.DecodeCharSelected` | `internal/net/protocol.go:519-574` | The decoder with all its outcomes, among them the read beyond the packet |
| `CharSelected.RoundTrip` | `internal/net/protocol.go:519-574` | A complete packet yields object id, class and position whatever its strings are |
| `CharSelected.TruncationOutcome` | `internal/net/protocol.go:519-574` | For every cut of a complete packet, which outcome it has; the decoder leaves the packet exactly when one to four of the last bytes are missing |
| `CharSelected.PanicsExactly` | `internal/net/protocol.go:519-574` | On arbitrary bytes, the decoder leaves the packet exactly when both strings are terminated and 36 to 39 bytes follow them |
| `ItemList.ExtractEquippableItems` | `internal/net/protocol.go:756-821` | The loop over a mutable offset computes the recursive walk of the records, on all bytes; another opcode than 0x11 or another send type than 2 yields nothing |
| `ItemList.SkipItem` | `internal/net/protocol.go:785-817` | Where a record ends, given its mask and its two array lengths, or that the walk stops |
| `ItemList.ItemsWalked` | `internal/net/protocol.go:756-821` | A serialised list of records with any masks and any array lengths is walked record by record |
| `ItemList.RoundTrip` | `internal/net/protocol.go:753-821` | From records whose blocks follow from the bits of their masks, extraction returns exactly the object ids whose type2 is at most 2, in order |
| `ItemList.TruncationIsPrefix` | `internal/net/protocol.go:756-821` | On arbitrary bytes, what a truncated packet yields is a prefix of what the whole packet yields |
| `ItemList.ItemsFit` | `internal/net/protocol.go:756-821` | On arbitrary bytes, a packet that yields n items has opcode 0x11, send type 2 and at least 10 + 43 n bytes |
| `LoginCipher.DecipherUndoesEncipher` | `internal/crypto/server_crypt.go:79-96` | Block by block, deciphering undoes enciphering for every permutation of 8-byte blocks |
| `LoginCipher.EncipherUndoesDecipher` | `internal/crypto/server_crypt.go:79-96` | And the other way round |
| `LoginCipher.PaddedLengthBounds` | `internal/crypto/server_crypt.go:47-57` | A multiple of 8 that leaves 16 to 23 bytes behind the first payload on a cipher and 12 to 19 behind every other |
| `LoginCipher.PaddedLengthIsLeast` | `internal/crypto/server_crypt.go:47-57` | No shorter multiple of 8 has room for the 16 or 12 bytes |
| `LoginCipher.PaddedLengthOfTheLogin` | `internal/crypto/server_crypt.go:47-57` | 25 bytes become 48 as the first packet, 146 become 160 later |
| `LoginCipher.PaddedBytes` | `internal/crypto/server_crypt.go:59-77` | Payload first, zeros behind it, and the checksum of all that in the last word |
| `LoginCipher.ChecksumOfWords` | `internal/crypto/server_crypt.go:72-77` | The checksum is the exclusive or of the words of the packet |
| `LoginCipher.PaddedCancels` | `internal/crypto/server_crypt.go:72-77` | All words of a padded and signed packet cancel out |
| `LoginCipher.PeerRecovers` | `internal/crypto/server_crypt.go:37-83` | A peer with the same permutation recovers the payload as a prefix of a plaintext whose words cancel |
| `LoginCipher.UnmaskUndoesMask` | `internal/crypto/server_crypt.go:109-123` | The backward pass undoes the forward pass for every word sequence and key, and its accumulator ends as the initial key |
| `LoginCipher.MaskUndoesUnmask` | `internal/crypto/server_crypt.go:109-123` | And the other way round |
| `LoginCipher.PassedClosedForm` | `internal/crypto/server_crypt.go:109-123` | The pass in closed form: word j is masked with the key plus the sum of the words from the second to the j-th, modulo 2^32; the whole sum lies in the word before the last |
| `LoginCipher.PassRoundTrip` | `internal/crypto/server_crypt.go:109-123` | On a whole packet the first and the last word stay and all others come back but the one that carried the key |
| `LoginCipher.InitPacketRecovered` | `internal/crypto/server_crypt.go:97-107` | Through block cipher and pass, the words of the server's first packet |
| `ServerCrypt.Crypt.Encrypt` | `internal/crypto/server_crypt.go:37-83` | The slice grows inside its own array when it has the room and moves when not, to a multiple of 8 that is 16 to 23 bytes longer for the first packet and 12 to 19 later; either way it shows the cipher image of payload, zeros and checksum, and nothing else of the array changes |
| `ServerCrypt.Crypt.Decrypt` | `internal/crypto/server_crypt.go:85-95` | Positive multiples of 8 are deciphered in place, everything else is refused untouched |
| `ServerCrypt.Crypt.DecryptInit` | `internal/crypto/server_crypt.go:97-107` | Block decryption and pass in place; out of bounds exactly for 8 bytes |
| `ServerCrypt.DecXorPass` | `internal/crypto/server_crypt.go:109-123` | For every size the wrapping position terminates; from 12 bytes on the loop undoes the forward pass on the words counted from the end and touches nothing else, from 8 to 11 it leaves the slice, below 8 nothing happens |
| `InitPacket.DecodeInitRoundTrip` | `internal/net/protocol.go:115-139` | Session id, version, modulus and Blowfish key of every greeting come back from where they lie |
| `InitPacket.InitComesThrough` | `internal/client/client.go:115-134` | The decoded greeting equals the one the server encoded if and only if the packet has 46 words or more, or the pass key happens to agree in its low byte |
| `LoginClient.Client.HandleInit` | `internal/client/client.go:109-138` | From the stream to session id, RSA key and session cipher, with every refusal; a refused greeting leaves the static cipher behind |
| `LoginClient.Client.Transmit` | `internal/client/client.go:146-153` | The aliasing argument: what Send frames is the ciphertext Encrypt left in the writer's own buffer |
| `LoginClient.Client.SendAuthGG` | `internal/client/client.go:140-171` | Nothing happens in other states; else one exchange, and the state moves on exactly for the right answer |
| `LoginClient.Client.Login` | `internal/client/client.go:173-227` | The twice encrypted credentials go out; granted, denied, too short, unexpected and missing answers are told apart, and only a granted one stores its keys |
| `LoginClient.Client.FetchServerList` | `internal/client/client.go:229-264` | The request is determined by the stored keys; the answer is handed on exactly when its opcode is right |
| `LoginClient.Client.SelectServer` | `internal/client/client.go:267-307` | The same for the server selection, storing the play keys |
| `LoginClient.KeysComeThrough` | `internal/client/client.go:173-307` | End to end through framing and cipher: of two keys behind opcode 0x03 or 0x07 the first is stored as the first and the second as the second; 0x01 and 0x06 deny them, and what follows stays on the stream |
| `LoginClient.ShortGrant` | `internal/net/protocol.go:186-189` | An answer of one block is too short for two keys |
| `LoginClient.Client.LoginPipeline` | `cmd/main.go:242-269` | A login that gets as far as the server list has handed over the stream of its three payloads |
| `LoginClient.Client.LoginAndSelect` | `cmd/main.go:198-216` | With the server selection it is the stream of four, and a server that deciphers frame after frame has recovered every request |
| `LoginClient.PeerRecoversSession` | `internal/client/client.go:140-307` | A server reading frame after frame recovers every request of a login session in order, each a prefix of a plaintext whose words cancel |
| `LoginClient.LoginStreamAppend` | `internal/client/client.go:140-307` | One more request adds its frame to the session's stream, with the larger reserve only for the first |
| `LoginClient.LoginFrameLength` | `internal/crypto/server_crypt.go:47-57` | How long each request is on the wire, first and later |
| `Rsa.UnscrambleModulus` | `internal/crypto/rsa.go:40-58` | The four in-place loops on 128 bytes compute the unscrambled modulus, each byte given by one or two bytes of what came in; any other length is left as it is |
| `Rsa.UnscrambledClosedForm` | `internal/crypto/rsa.go:40-58` | What the four steps amount to, byte by byte, without the steps |
| `Rsa.UnscramblingIsABijection` | `internal/crypto/rsa.go:40-58` | On all 128-byte values the same steps in reverse order undo it, on both sides |
| `Rsa.ModulusInRange` | `internal/crypto/rsa.go:18-38` | The modulus fits 128 bytes, and it is zero exactly when the server sent zeros |
| `Rsa.RSA.constructor` | `internal/crypto/rsa.go:18-38` | The integer of the unscrambled modulus, cut or extended to 128 bytes, and exponent 65537 |
| `Rsa.FittedBytes` | `internal/crypto/rsa.go:26-30` | Which bytes are unscrambled when the server sent more or fewer than 128 |
| `Rsa.Os2ipConcat` | `internal/crypto/rsa.go:32` | A byte string as a number is big-endian (section 4.2 of RFC 8017) |
| `Rsa.BlockKeepsNumber` | `internal/crypto/rsa.go:66-73` | The octet string has the number's value, and 128 bytes exactly when the number is below 256^128 (sections 4.1 and 4.2 of RFC 8017) |
| `Rsa.RSA.Encrypt` | `internal/crypto/rsa.go:60-74` | For every positive modulus of at most 128 bytes, 128 bytes whose value is m^e mod n (section 5.1.1 of RFC 8017); for modulus 0 there is no reduction |
| `LoginBlock.FillBlock` | `internal/net/protocol.go:160-164` | The three copies into the block: byte by byte, what hides what |
| `LoginBlock.CredentialsBytes` | `internal/net/protocol.go:160-164` | For fields that fit: 94 zeros, the account in 14 bytes, the password in 16, the session id |
| `LoginBlock.EncodeLoginRequest` | `internal/net/protocol.go:158-177` | 146 bytes: 0x00, then 128 bytes with the value of the encrypted credentials block, then 17 zeros |
| `LoginBlock.CredentialsComeBack` | `internal/net/protocol.go:160-164` | For NUL-free strings, account and password can be read back if and only if they have at most 14 and 16 bytes; the session id always |
| `LoginBlock.CredentialsInjective` | `internal/net/protocol.go:160-164` | Within these bounds the block determines account, password and session id |
| `LoginBlock.LongFieldsCollide` | `internal/net/protocol.go:160-164` | Beyond them different logins share a block, in each of the three ways a field can run out of its place |
| `LoginBlock.CredentialsAreSmall` | `internal/net/protocol.go:160-166` | As an integer the block is below 256^34, which is 2^272 |
| `TargetRing.Targets.AddTarget` | `internal/client/client.go:951-969` | Zero, ourselves and known ids change nothing; any other id is taken, behind the rest or, once there are 256, in place of the oldest |
| `TargetRing.AddGains` | `internal/client/client.go:951-969` | The same of the ring as a value |
| `TargetRing.Targets.RandomTarget` | `internal/client/client.go:971-979` | The drawn target, or none exactly when none is known |
| `TargetRing.AddIsPush` | `internal/client/client.go:947-969` | Seen from its cursor the ring is a queue that drops its oldest entry |
| `TargetRing.RingHoldsLastAccepted` | `internal/client/client.go:947-969` | After any sequence of calls it holds, in order, the last 256 accepted ids, distinct, neither zero nor our own; the cursor moves only once it is full |
| `StatusUpdate.ParseSelfMp` | `internal/net/protocol.go:823-851` | The loop yields the last mana and the last maximum among the attributes the packet holds, and nothing for a foreign packet |
| `StatusUpdate.StatusRoundTrip` | `internal/net/protocol.go:823-851` | From any list of attributes the last mana and the last maximum come back |
| `BotObject.Client.HandlePacket` | `internal/client/client.go:868-945` | The dispatch on the client's own fields changes flags, targets and inventory as the interleaved model says, and position, mana and cooldowns as the packet does |
| `Hearing.TeleportIsHeard` | `internal/client/client.go:906-917` | From a serialised teleport: its coordinates become the position and both flags are raised |
| `Hearing.DeathIsHeard` | `internal/client/client.go:919-926` | A death is ours or changes nothing |
| `Hearing.ObjectsAreHeard` | `internal/client/client.go:889-898` | The id of an NPC (at byte 1) or a character (at byte 18) is added to the targets |
| `Hearing.BlowIsHeard` | `internal/client/client.go:928-940` | An attack of our own raises the signal, any other changes nothing |
| `Hearing.SkillUseIsHeard` | `internal/client/client.go:928-945` | The id at byte 1 decides about the signal, the one at byte 5 about the cooldown, which lasts the milliseconds sent |
| `Hearing.StatusIsHeard` | `internal/client/client.go:875-882` | Our own status sets mana and maximum to the last values sent, another one changes nothing |
| `Hearing.ItemsAreHeard` | `internal/client/client.go:883-888` | An item list replaces the inventory by its equippable items, unless it has none |
| `Hearing.ShortOnesAreHeard` | `internal/client/client.go:906-945` | A teleport without coordinates still raises both flags, a short skill broadcast still the signal |
| `Hearing.NothingElseIsHeard` | `internal/client/client.go:868-945` | Every other opcode, and every packet too short, changes nothing |
| `BotObject.CooldownHolds` | `internal/client/client.go:928-945` | After our own cast the skill waits out its reuse time, then only the 15 mana decide; other skills are not affected |
| `BotObject.Client.CanCast` | `internal/client/client.go:1037-1048` | Enough mana, and the skill off cooldown |
| `BotObject.Client.AckTeleport` | `internal/client/client.go:649-663` | The flag is down afterwards; an Appearing is sent exactly when it was up |
| `BotObject.HandleIsLearnThenConverge` | `internal/client/client.go:906-917` | The model's two teleport steps together are the object's one call |
| `GameLoopSafety.SingleWriter` | `internal/client/client.go:549-568` | In no reachable state do two goroutines have something to encode, encrypt or write, whether or not the writes succeed; the main one has only after cancellation and the end of the action loop |
| `GameLoopSafety.OnlySendersTouch` | `internal/client/client.go:554-567` | A step of anyone else leaves send buffer, outgoing key, stream and failure flag alone down to the last byte, but for the server taking frames off the far end |
| `GameLoopDelivery.ServerGetsTheLog` | `internal/client/client.go:549-606` | In every interleaving without a failed write the server receives in full, in order and byte for byte, the packets written; the read loop works through a prefix of what the server sent |
| `GameLoopDelivery.LogoutIsTheLastWord` | `internal/client/client.go:565-567` | When the main goroutine is done the log is packets of the action loop followed by one Logout, unless a write failed; before that there is no Logout |
| `GameLoopDelivery.LoopOnOpenedChannel` | `internal/client/client.go:366-606` | On a channel the two endpoints have opened themselves, in any way, both directions are in step when the loop starts, and all the client has sent since it connected reaches the server, the loop's packets last |
| `GameLoopDelivery.NothingAfterLogout` | `internal/client/client.go:565-567` | Whatever happens afterwards, log, buffer and key stay and not a byte enters the stream, with or without failed writes |
| `GameLoopDelivery.LogsAreDistinguishable` | `internal/client/client.go:549-606` | The bytes the server gets determine the packets of the log |
| `GameLoopActs.EveryPacketIsExplained` | `internal/client/client.go:572-845` | In every run every packet sent is one its situation calls for: a blow hits what was targeted right before it, only mystics cast and only Wind Strike, only announced objects are targeted and never the bot itself, a position confirms the move right before it, loot is swept only after a blow, only listed items are used |
| `GameLoopActs.WhatIsBegunIsFinished` | `internal/client/client.go:687-814` | In every run the packet behind a target is a blow and the one behind a move its confirmation, unless it is the Logout |
| `GameLoopActs.DecisionTable` | `internal/client/client.go:609-647` | What the choice of an action comes to, for every draw and situation, with the override and both fall-backs |
| `GameLoopActs.StrikeTable` | `internal/client/client.go:799-811` | A mystic whose spell is ready casts it; everyone else attacks |
| `GameLoopActs.FlowBetweenActions` | `internal/client/client.go:581-606` | Acknowledgement, delay, cancellation and death between two actions |
| `GameLoopActs.FlowOfTheWay` | `internal/client/client.go:707-719` | A move ends in its confirmation or, once cancelled, with the loop |
| `GameLoopActs.FlowOfRounds` | `internal/client/client.go:750-764` | How a round of a fight begins, what it may target, and what ends a fight |
| `GameLoopActs.FlowOfTheWait` | `internal/client/client.go:771-783` | The old signal is drained, and the wait ends by cancellation, by the signal, which is consumed, or by time |
| `GameLoopActs.SignalComesFromBroadcast` | `internal/client/client.go:928-936` | The signal is raised only by the read loop, and only by a packet that is a broadcast of our own blow |
| `GameLoopShutdown.EveryRunCanLogOut` | `internal/client/client.go:565-606` | From every reachable cancelled state at most twenty further steps reach the end, with the Logout as last frame if nothing had failed: no state is a trap |
| `GameLoopPhases.RunIsLater` | `internal/client/client.go:906-969` | Over whole runs cancelled, converged and dead are never cleared, targets and items never vanish, and the log only grows |
| `GameLoopPhases.EngagedBotStaysPut` | `internal/client/client.go:616-632` | Once a stationary or converged bot knows a target, every continuation sends at most the one move already decided on, and none if none was |
| `GameLoopPhases.BotWithoutTargetsRoams` | `internal/client/client.go:629-636` | Without targets the same bot does roam |
| `GameLoopPhases.DeadBotOnlyTalks` | `internal/client/client.go:593-600` | After the loop has seen its death every continuation sends only acknowledgements, chat and the final Logout |
| `GameLoopPhases.ElevenActsAfterDeath` | `internal/client/client.go:593-601` | In every run, whatever the loop is doing when the bot dies, it sends at most eleven more packets other than chat, acknowledgements and Logout |
| `GameLoopPhases.SendIsOneFrame` | `internal/client/client.go:655-662` | Three undisturbed send steps of the model put one frame on the stream, as Client.SendPacket does |
| `GameLoopTeleports.TeleportsAreAcknowledged` | `internal/client/client.go:649-663` | In every interleaving acknowledgements number at most the teleports; without failed writes each answers its own, newer teleport, and when the flag is down the last has answered them all |
| `Scenario.CheckIsExactUnlessWrapped` | `internal/client/scenario.go:242-251` | The 32-bit spawn check agrees with the exact disk unless the squared distance is out of range and wraps to a small or negative number; it never rejects a spawn inside |
| `Scenario.CheckIsExactInTheBox` | `internal/client/scenario.go:246-247` | It is right about every spawn of a box around the town if and only if the box reaches at most 32767 each way |
| `Scenario.SpawnTable` | `internal/client/scenario.go:242-251` | The verdict on every spawn for each of the nine classes, with the centre of its town, the 3000 units and the wrap-around written out; any other class has no town |
| `Scenario.FarSpawnPasses` | `internal/client/scenario.go:246-247` | A spawn 65536 units off is accepted |
| `Scenario.SanitizeName` | `internal/client/scenario.go:326-339` | The loop keeps the first sixteen usable characters, or falls back to a default |
| `Scenario.KeptOne` | `internal/client/scenario.go:329-333` | A character is usable exactly if it is a letter or a digit of ASCII |
| `Scenario.KeptParts` | `internal/client/scenario.go:329-333` | The usable characters of an account are those of its parts, in order |
| `Scenario.SanitizedCases` | `internal/client/scenario.go:326-339` | The default name, all usable characters or the first sixteen, by their number |
| `Scenario.SanitizedIsValid` | `internal/client/scenario.go:326-339` | The result has 3 to 16 alphanumeric characters and is a fixed point |
| `Scenario.CreateStarterName` | `internal/client/client.go:428-438` | The load-test path's own naming loop |
| `Scenario.NamesAgree` | `internal/client/client.go:428-438` | The two ways of naming agree if and only if the account has no, or three to sixteen, usable characters |
| `Scenario.SlotNamesAreUnique` | `internal/client/scenario.go:210-216` | Different slots get different names, and those of slots below 100 fit sixteen characters |
| `Scenario.SlotNameIsBaseAndNumber` | `internal/client/scenario.go:210-216` | A slot name is the base, cut to fourteen characters, and the decimal numeral of the slot without leading zeros |

## Left out

- Blowfish itself lives in another repository and is not part of this model: an arbitrary block permutation stands for it, and `CipherRange` and `DecipherRange` for its in-place loops.
- Modular exponentiation is the library's: the power function specifies it. RSA decryption is not modelled.
- Dialling, addresses, deadlines, sleeps and wall-clock time: a connection is the bytes that arrive and the bytes handed over, a sleep is a point where others run.
- Link.ReceiveDelivers: a receiver with half a frame waits; timeouts and closed connections appear as the event that ends the read loop.
- Positions, mana, skill cooldowns, chat phrases and random choices in the interleaved game loop come with the event; the roaming trigonometry is not modelled, and nothing is claimed about where the bot believes it is.
- The mutex, the atomics and the channel of capacity one are steps of the state machine; the Go memory model below them is not.
- GameLoopShutdown.EveryRunCanLogOut: says that the end can be reached, not that a scheduler will reach it.
- GameLoopTeleports.TeleportsAreAcknowledged: speaks of acknowledgements written or being written; with the loop stopped a late teleport stays unanswered.
- LoginClient.Client.FetchServerList: hands the answer on; the fixed-size decoder of the server list would only add easy members, as would the texts of login failures.
- LoginClient.Client.Transmit: asks that the padded packet fits the writer's buffer, as all requests of the client do; a longer one would run off that buffer in Send.
- Lobby.SelectAndEnter: a failed read, a failed write and a decoding error all end as NotSelected.
- LoginClient.Client.LoginPipeline: says what has been handed over when it succeeds; what a failing step leaves is said by the methods it calls.
- Scenario B's outcomes are decided by a server that is not in the repository; class tables and race ids would only add easy members.
- Loggers, flags and prompts.
- Lengths and offsets are unbounded integers where Go has 64-bit ones; every 16- and 32-bit wrap-around is modelled.
- Some long methods of the source are split into one method per loop or step, with the same statements.
