# Verified models of the inetutils protocols

This project models five parts of GNU inetutils whose correctness rests on state that two parties,
or two passes over the same data, have to keep in agreement, and proves that they do.

- **Telnet ENCRYPT option** (`libtelnet/enc_des.c`, `libtelnet/encrypt.c`; RFC 2946, RFC 2952,
  RFC 2953). `FeedbackCipher` has the CFB and OFB streams over an unknown block cipher,
  `EncryptOption` every handler as a function of the state of one direction, `EncryptSession` two
  ends joined by first-in first-out links, `EncryptLockstep` and `EncryptRuns` the invariant that
  holds in every run, `EncryptProgress` that the handshake can always be brought to its end, and
  `EncryptTrace` what holds against a peer that sends anything at all. `EncryptSwitch` says when output
  is switched on and off, and `EncryptAnswers` what is answered to each suboption, octet for octet.
  `StreamInfo` and `EncryptEndpoint` are the records and routines as the program has them, updated
  in place and proved against those functions.
- **TFTP buffers and netascii** (`libinetutils/tftpsubs.c`, `src/tftp.c`, `src/tftpd.c`; RFC 1350).
  `Netascii` has the conversion as functions, `Stdio` the files, `TftpBuffers` the two buffers with
  read-ahead and write-behind, `TftpTransfer` a whole transfer through both, and `TftpProtocol` the
  stop-and-wait exchange over a network that loses, repeats and reorders.  `TftpTransfer` also runs
  the buffers of both ends under that exchange.
- **FTP client against FTP server** (`ftp/ftp.c`, `ftpd/ftpd.c`, `ftp/domacro.c`; RFC 959,
  RFC 1639, RFC 2428). `FtpAscii` has ASCII transfers, `FtpRestart` the restarted `get`,
  `FtpReplies`, `FtpControl` and `FtpServer` the replies as they are printed and taken apart again,
  `FtpPassive` the passive-mode replies, and `FtpMacro` the expansion of macro lines.
- **The template interpreter of ifconfig** (`ifconfig/printif.c`). `TemplateOutput` and
  `TemplateInterpreter` say what the interpreter does to any text, `TemplateTrees` what a template
  means, `TemplateNames` what each name in a template does, `TemplateOverrun` when a text sends the
  interpreter past its end, and `TemplatePrinter` is the interpreter with its cursor, depth and columns.
- **The ICMP echo engine** (`libicmp`, `ping`; RFC 792, RFC 1071). `IcmpChecksum` and `IcmpEcho`
  have the checksum and the messages, `PingTable` the table that recognizes duplicates, and
  `PingStatistics` the square root and the statistics over exact real numbers.

`Basics` holds what several of these share.

Code that updates state step by step is a class or a method with a loop, proved to compute a
function of the old state; the properties are then lemmas about those functions.

Findings about the code, each stated and proved with its exact condition:

- `fb64_stream_iv` seeds `str_output`, which OFB does not use: OFB starts from the zeroed feed, so
  its output does not depend on the IV that was exchanged (`OfbIgnoresIv`). The comment at
  `libtelnet/enc_des.c:752-771` says otherwise; the model follows the code.
- The TFTP receivers compare a 16-bit block number with an untruncated count, so a transfer can be
  finished if and only if 65535 blocks suffice (`FinishesIffShort`).
- The last acknowledgement of a TFTP transfer is never repeated: `recvfile` of tftpd receives a
  repeated last block into `buf` but tests the header in `dp`, the packet buffer the block is not in
  (`src/tftpd.c:797-803`), and `recvfile` of tftp does not wait for one. So a sender that has not
  finished can still do so if and only if 65535 blocks suffice and the receiver has not finished, or
  the last acknowledgement is still in transit (`LastAckIsNeverRepeated`, `SenderFinishesIff`).
- An ASCII transfer of ftp changes exactly the files in which a NUL directly follows a CR
  (`IdentityIffNoCrNul`).
- When the lines in the middle of a reply hold no line feed and no IAC and none of them looks like the
  last, a call of `getreply` takes the reply off the stream if and only if no line feed is left in the
  text of the last line once the Telnet commands are taken out (`TakesReplyIffNoLineFeed`). `fatal`
  prints one (`ftpd/ftpd.c:1678-1683`) and leaves the client a line behind (`LineFeedDesynchronizes`).
- A reply that answers none of the last 1024 transmissions of ping is judged by the transmission that
  has its bit by then: it is called a duplicate exactly if that one was answered (`LateReplies`).
- A change of one 16-bit word is missed by the ICMP decoder exactly if it is between 0x0000 and
  0xffff, outside the checksum field, in a message with another word that is not zero
  (`SingleWordDamage`).
- The template interpreter goes past the end of a text, unless a handler ends the process before, if
  and only if one scan from left to right, which takes `$` with the character behind it and `${` with
  all up to the next `}`, comes upon a `$` as the very last character (`OverrunsIff`). So `x$`, `}$`
  and `${}{$` send it past the end, and `${x$` and `$$` do not.
- A reply to ping that is too short to carry a time is counted but not timed. So the printed minimum
  is not above the printed mean, whatever the trip times, if and only if every reply was timed
  (`LeastIsBelowMeanIffAllTimed`), and in a single run exactly if the times that were taken make up
  for the others (`EchoFinish`).

## Model

| member | source | states |
|---|---|---|
| FeedbackCipher.DecryptInverts | libtelnet/enc_des.c:683-833 | decrypting what was encrypted gives the plain text back and leaves both streams equal, for CFB and OFB and any length |
| FeedbackCipher.EncryptSplits | libtelnet/enc_des.c:683-711 | encrypting in two calls is encrypting the concatenation in one |
| FeedbackCipher.ChunkedRoundTrip | libtelnet/enc_des.c:683-750 | however output is cut into calls, decrypting octet by octet gives the plain text and equal streams |
| FeedbackCipher.BackUpThenRedo | libtelnet/enc_des.c:713-730 | decrypt(-1) undoes one octet: decrypting it again gives the same octet and the same stream, also at a block border |
| FeedbackCipher.KeyAndIvCommute | libtelnet/enc_des.c:635-659 | key and IV may be installed on a stream in either order |
| FeedbackCipher.OfbIgnoresIv | libtelnet/enc_des.c:635-647 | an OFB stream masks position i with the iterated encryption of its old feed, whatever IV was set |
| FeedbackCipher.CfbFeedsBack | libtelnet/enc_des.c:683-711 | octet i of CFB output is the plain octet xor octet i % 8 of the encryption, under the key, of the IV for the first block and of the cipher text of the block before for every other |
| FeedbackCipher.CfbRestartsWithKey | libtelnet/enc_des.c:649-659 | a new key starts CFB again from the IV that was exchanged, however far the stream has come |
| FeedbackCipher.BitsOfBits | libtelnet/enc_des.c:706 | the xor of two octets differs from zero in exactly the bits in which they differ |
| StreamInfo.Stinfo.StreamIv | libtelnet/enc_des.c:635-647 | the record after fb64_stream_iv |
| StreamInfo.Stinfo.StreamKey | libtelnet/enc_des.c:649-659 | the record after fb64_stream_key |
| StreamInfo.Stinfo.CfbEncrypt | libtelnet/enc_des.c:683-711 | the loop replaces the first c octets of the buffer by their CFB cipher text, leaves the others, and advances the stream accordingly |
| StreamInfo.Stinfo.OfbEncrypt | libtelnet/enc_des.c:772-797 | the same for OFB |
| StreamInfo.Stinfo.CfbDecrypt | libtelnet/enc_des.c:713-750 | one octet is decrypted, or one is taken back for -1 |
| StreamInfo.Stinfo.OfbDecrypt | libtelnet/enc_des.c:799-833 | the same for OFB |
| TelnetFrames.ParseInvertsFrame | libtelnet/encrypt.c:830-852 | a suboption or data with any payload, IAC included, is read back as it was written |
| TelnetFrames.PayloadDoesNotEnd | libtelnet/encrypt.c:830-852 | a reader that takes IAC with the octet behind it finds the end of a suboption behind its payload, and not before, whatever the payload |
| EncryptSession.KeyCommutes | libtelnet/enc_des.c:463-534 | a receiver may get the session key before or after any message but START |
| EncryptLockstep.ReadBack | libtelnet/enc_des.c:683-833 | a receiver in step reads back the message just written and its stream moves with the sender's |
| EncryptLockstep.SendingNeutral | libtelnet/encrypt.c:830-852 | messages that do not steer encryption keep sender and receiver in step |
| EncryptLockstep.SendingIv | libtelnet/enc_des.c:221-290 | sending the IV keeps sender and receiver in step |
| EncryptLockstep.SendingStartOutput | libtelnet/encrypt.c:872-930 | switching output on keeps them in step, with START as the last clear frame |
| EncryptLockstep.SendingEnd | libtelnet/encrypt.c:932-951 | switching output off keeps them in step |
| EncryptLockstep.SendingReply | libtelnet/enc_des.c:406-446 | handling IV_OK keeps them in step: the sender's stream becomes the one the receiver already has |
| EncryptLockstep.SendingDecKeyid | libtelnet/encrypt.c:767-816 | accepting key id 0 keeps them in step |
| EncryptLockstep.SendingSupport | libtelnet/encrypt.c:527-565 | choosing a method keeps them in step |
| EncryptLockstep.SendingKey | libtelnet/enc_des.c:463-534 | the arrival of the session key at the sender, with the start that waited for it, keeps them in step |
| EncryptRuns.HearingReceive | libtelnet/encrypt.c:567-615 | what the receiving end answers to a frame, and that each answer is given once |
| EncryptRuns.ReceiveKeeps | libtelnet/encrypt.c:527-828 | delivering any frame keeps the invariant of both directions |
| EncryptRuns.ActKeeps | libtelnet/encrypt.c:465-951 | every action of either end keeps the invariant of both directions |
| EncryptRuns.RunKeeps | libtelnet/encrypt.c:465-951 | the invariant holds after every run |
| EncryptRuns.DataPathIsFaithful | libtelnet/encrypt.c:872-951 | in every run, in both directions, the frames read are a prefix of the frames written, and the receiver that has read everything decrypts with exactly the sender's stream |
| EncryptRuns.HandshakeCompletes | libtelnet/encrypt.c:527-707 | in every run that has delivered everything, in either direction with a key, an offer and a common method, the handshake has succeeded |
| EncryptSwitch.StartedOutputIsEncrypted | libtelnet/encrypt.c:872-930 | after any run that has completed the handshake of a direction, a start says START with key id 0, the receiver that reads all there is decrypts with the sender's stream, and the next data go over the line as the encryption of their frame |
| EncryptSwitch.AutoStartInRuns | libtelnet/encrypt.c:767-816 | with automatic encryption, in any run, the delivery of the key id that completes the handshake switches output on in the same way, with no start by the user |
| EncryptSwitch.StoppedOutputIsClear | libtelnet/encrypt.c:932-951 | after any run in which output is on, a stop says END, the receiver goes back to clear text, and the next data go over the line as they are |
| EncryptSwitch.StartSwitchesOn | libtelnet/encrypt.c:902-924 | the same for one step, from every state of the invariant |
| EncryptSwitch.WaitsForKeyid | libtelnet/enc_des.c:555-574 | a key id can only come back to a sender that has key id 0, a method, an acknowledged IV, and lacks nothing else |
| EncryptSwitch.KeyidCompletes | libtelnet/encrypt.c:767-816 | that key id completes the handshake, and starts output exactly if encryption is automatic |
| EncryptSwitch.OtherKeyidIsRefused | libtelnet/enc_des.c:555-574 | any other key id is answered by an empty one and starts nothing |
| EncryptSwitch.RequestIsHeeded | libtelnet/encrypt.c:752-762 | a request to start switches a complete sender on; without a method a server remembers it and a client does not |
| EncryptSwitch.RefusalEndsAuto | libtelnet/enc_des.c:406-446 | anything but an acknowledged IV fails the method, ends automatic encryption and says nothing |
| EncryptSwitch.AcknowledgementProposesKeyid | libtelnet/enc_des.c:413-428 | an acknowledged IV is put to use, key id 0 is proposed, and automatic encryption stays as it is |
| EncryptSwitch.OfferIsMadeOnce | libtelnet/encrypt.c:465-481 | the methods are offered once, and a client that decrypts automatically asks for a start before that |
| EncryptSwitch.FirstCommonMethod | libtelnet/encrypt.c:533-550 | the method is the first of the peer's list that the sender has |
| EncryptSwitch.IvIsTakenWhole | libtelnet/enc_des.c:313-382 | only an IV of eight octets is taken; one of another length also fails the method |
| EncryptAnswers.IvIsAcknowledged | libtelnet/encrypt.c:567-615 | an IV for a method this end has seeds its stream, sets the mode, and is answered by IV_OK, octet for octet |
| EncryptAnswers.BadIvIsRefused | libtelnet/encrypt.c:567-615 | anything else about such a method is answered by IV_BAD and leaves the stream alone; what becomes of state, mode and automatic decryption, and when a request to start follows |
| EncryptAnswers.UnknownIsIgnored | libtelnet/encrypt.c:567-583 | an unknown type, or a method this end has not, gets no answer |
| EncryptAnswers.KeyidIsAnswered | libtelnet/encrypt.c:767-828 | for every key id at the decrypting end: which one stays, what it completes, and that it is sent back exactly if it is news |
| EncryptAnswers.KeyidIsJudged | libtelnet/encrypt.c:767-828 | the same at the encrypting end |
| EncryptAnswers.LongKeyidsAreCut | libtelnet/encrypt.c:774-775 | of a key id only the first 64 octets count, in either direction |
| EncryptAnswers.BadIvIsWipedOut | libtelnet/enc_des.c:429-438 | IV_BAD leaves the sender a failed method whose stream starts from zeros |
| EncryptAnswers.LateAcknowledgement | libtelnet/encrypt.c:617-665 | an acknowledgement that comes behind the key id completes the handshake, and starts output exactly if encryption is automatic |
| EncryptAnswers.OfferRestartsOutput | libtelnet/encrypt.c:527-565 | an offer of a method that has been negotiated switches output on again |
| EncryptAnswers.AskedToStop | libtelnet/encrypt.c:736-743 | from every state of the invariant, reading a request to stop takes the output of the reader back to clear text, and its peer follows |
| EncryptAnswers.AskedToStart | libtelnet/encrypt.c:752-762 | from every state of the invariant, reading a request to start switches the output of a reader that is complete on, and its peer follows |
| EncryptAnswers.FirstWords | libtelnet/encrypt.c:465-481 | what an end says first, octet for octet, for every setting of its flags |
| EncryptProgress.OnTxGrows | libtelnet/encrypt.c:527-828 | what the output direction sends on a message weighs less than the message |
| EncryptProgress.ReceiveLightens | libtelnet/encrypt.c:527-828 | every frame that an honest end reads lightens the two links together, whatever it answers |
| EncryptProgress.LinksEmpty | libtelnet/encrypt.c:527-828 | from every state of the invariant with both keys, reading alone empties both links |
| EncryptProgress.HandshakeCannotGetStuck | libtelnet/encrypt.c:527-707 | after any run that has given both ends the key, there is a sequence of receptions after which nothing is in transit and every direction with an offer and a common method has completed the handshake |
| EncryptTrace.StartEffect | libtelnet/enc_des.c:221-290 | fb64_start leaves another method alone, only waits, or sends an IV under a valid key |
| EncryptTrace.FbReplyEffect | libtelnet/enc_des.c:406-446 | a reply about one method changes the state of no other and sends no IV |
| EncryptTrace.OnTxTracks | libtelnet/encrypt.c:527-828 | every handler keeps the state bits at most as far cleared as the observed events allow |
| EncryptTrace.ReactTracks | libtelnet/encrypt.c:465-951 | so does every input from the peer, the user or the key exchange |
| EncryptTrace.WatchMeans | libtelnet/enc_des.c:555-574 | the observer's three flags stand for events of the run since the last failure |
| EncryptTrace.EncryptsOnlyAfterHandshake | libtelnet/encrypt.c:872-930 | against any peer, output is switched to a method only after, since its last failure, an IV was sent under a valid key, then acknowledged, and key id 0 accepted |
| EncryptEndpoint.FillDoubled | libtelnet/encrypt.c:830-852 | the loop that doubles IAC stays in the buffer and writes the doubled payload |
| EncryptEndpoint.ScanTypes | libtelnet/encrypt.c:533-550 | the scan finds all common types and the first of them |
| EncryptEndpoint.Assemble | libtelnet/encrypt.c:830-852 | the buffer is assembled into the frame of the suboption |
| EncryptEndpoint.Endpoint.constructor | libtelnet/encrypt.c:212-243 | encrypt_init leaves the initial state |
| EncryptEndpoint.Endpoint.NetWrite | libtelnet/enc_des.c:683-711 | what is written passes through encrypt_output when that is set |
| EncryptEndpoint.Endpoint.FbStart | libtelnet/enc_des.c:221-290 | fb64_start has exactly the effect of the function Start and touches nothing of the input direction |
| EncryptEndpoint.Endpoint.EncryptStartOutput | libtelnet/encrypt.c:872-930 | likewise for encrypt_start_output |
| EncryptEndpoint.Endpoint.EncryptSendEnd | libtelnet/encrypt.c:932-951 | likewise for encrypt_send_end |
| EncryptEndpoint.Endpoint.EncryptSupport | libtelnet/encrypt.c:527-565 | likewise for encrypt_support |
| EncryptEndpoint.Endpoint.FbReplied | libtelnet/enc_des.c:406-446 | likewise for fb64_reply |
| EncryptEndpoint.Endpoint.EncryptReply | libtelnet/encrypt.c:617-665 | likewise for encrypt_reply |
| EncryptEndpoint.Endpoint.FbKeyidOut | libtelnet/enc_des.c:555-574 | likewise for fb64_keyid on the output direction |
| EncryptEndpoint.Endpoint.EncryptDecKeyid | libtelnet/encrypt.c:767-828 | likewise for encrypt_dec_keyid |
| EncryptEndpoint.Endpoint.EncryptRequestStart | libtelnet/encrypt.c:752-762 | likewise for encrypt_request_start |
| EncryptEndpoint.Endpoint.FbReceived | libtelnet/enc_des.c:313-382 | fb64_is changes the input state as stated and sends exactly one REPLY |
| EncryptEndpoint.Endpoint.EncryptIs | libtelnet/encrypt.c:567-615 | encrypt_is changes the input state as stated and sends the stated answers |
| EncryptEndpoint.Endpoint.FbKeyidIn | libtelnet/enc_des.c:555-574 | fb64_keyid on the input direction |
| EncryptEndpoint.Endpoint.EncryptEncKeyid | libtelnet/encrypt.c:767-822 | encrypt_enc_keyid and its answer |
| EncryptEndpoint.Endpoint.EncryptStart | libtelnet/encrypt.c:670-707 | encrypt_start switches decryption on, or asks the peer to stop |
| EncryptEndpoint.Endpoint.Decipher | telnet/telnet.c:1868-1869 | octets read pass one by one through decrypt_input and come out as the decrypted frame |
| EncryptEndpoint.Endpoint.Receive | libtelnet/encrypt.c:527-828 | a frame received has the effect of Deliver on both directions |
| EncryptEndpoint.Endpoint.EncryptSessionKey | libtelnet/encrypt.c:709-722 | the session key is installed in both methods and both directions, and waiting starts go ahead |
| Netascii.DecodeInvertsEncode | libinetutils/tftpsubs.c:154-271 | decoding the netascii form of any file gives the file |
| Netascii.EncodedIsNetascii | libinetutils/tftpsubs.c:176-200 | in the netascii form of any file every LF has a CR directly before it, every CR an LF or a NUL directly behind it, and what is added is one octet for each LF and each CR |
| Netascii.PutAllDecodes | libinetutils/tftpsubs.c:253-269 | writing octet by octet, backing up over a CR already written, amounts to decoding |
| Netascii.PutAllSplits | libinetutils/tftpsubs.c:253-269 | the conversion state carries over any division into blocks |
| TftpBuffers.ChunksFlatten | libinetutils/tftpsubs.c:154-202 | blocks in order concatenate to the stream, and a short block ends it |
| TftpBuffers.BlocksAreNetascii | libinetutils/tftpsubs.c:154-202 | the concatenation of the blocks of a converted file is netascii |
| TftpBuffers.Buffers.RwInit | libinetutils/tftpsubs.c:114-124 | both buffers and the conversion state after rw_init |
| TftpBuffers.Buffers.NextChar | libinetutils/tftpsubs.c:179-198 | each turn of the encoder yields the next octet of the encoded file, pairs split by a block border included |
| TftpBuffers.Buffers.FillAscii | libinetutils/tftpsubs.c:176-201 | the buffer and what remains make up what remained; only the end of the file leaves it short |
| TftpBuffers.Buffers.ReadAhead | libinetutils/tftpsubs.c:154-202 | read_ahead fills a free buffer with the next block and does nothing otherwise |
| TftpBuffers.Buffers.ReadIt | libinetutils/tftpsubs.c:132-146 | the n-th call hands out the n-th block of the encoded file |
| TftpBuffers.Buffers.HandOutAll | libinetutils/tftpsubs.c:132-152 | calling readit until a short block hands out all blocks of the encoded file, whose concatenation is netascii |
| TftpBuffers.Buffers.ReadAheadAtLeisure | libinetutils/tftpsubs.c:154-202 | read_ahead at any time between two calls of readit leaves the block in use and the sequence of blocks alone |
| TftpBuffers.Buffers.PutOut | libinetutils/tftpsubs.c:253-269 | the decoding loop, with its seeks, leaves the file that writing octet by octet means |
| TftpBuffers.Buffers.WriteBehind | libinetutils/tftpsubs.c:226-271 | write_behind flushes a pending block once and does nothing when none is pending |
| TftpBuffers.Buffers.WriteIt | libinetutils/tftpsubs.c:208-218 | writeit takes the block that has arrived, and at most one is pending |
| TftpBuffers.Buffers.WriteBehindAtLeisure | libinetutils/tftpsubs.c:226-271 | after write_behind the file is the decoding of all blocks received |
| TftpTransfer.OneBlock | src/tftpd.c:645-706 | one turn of sender and receiver, with or without read-ahead and write-behind, passes the next block |
| TftpTransfer.TransferFile | src/tftpd.c:645-800 | a whole transfer, converted or not, appends exactly the sender's file to the receiver's |
| TftpTransfer.OneAction | src/tftpd.c:645-800 | what each action of the exchange calls: the block sent is the one in the sender's buffer in use, and the block taken goes through the receiver's |
| TftpTransfer.TransferOverNetwork | src/tftpd.c:645-800 | under every schedule of a network that loses, repeats and reorders, the receiver's file has grown by exactly the decoding of the blocks that came through, and by the sender's file when the receiver has finished; the blocks of a converted file that came through are netascii then |
| TftpProtocol.StepKeeps | src/tftp.c:990-1225 | every packet sent, lost, repeated or received keeps sender and receiver at most one block apart |
| TftpProtocol.NothingIsLostOrRepeated | src/tftp.c:990-1225 | whatever the network does, the receiver has the first blocks once each and in order, and the sender stops only after the receiver has everything |
| TftpProtocol.LongStreamsNeverFinish | src/tftpd.c:715-780 | a stream that needs more than 65535 blocks is never received in full |
| TftpProtocol.CanBeReceived | src/tftpd.c:645-780 | from every reachable state, whatever has been lost, a stream of at most 65535 blocks can still be received in full |
| TftpProtocol.FinishesIffShort | src/tftp.c:1100-1225 | after any run, the receiver can still finish if and only if 65535 blocks suffice |
| TftpProtocol.DuplicatesAreAnswered | src/tftpd.c:765-775 | a block that comes again is acknowledged again and not taken again, and an acknowledgement of the block before has the present block sent again |
| TftpProtocol.FirstExchange | src/tftp.c:1011-1091 | a receiving server has acknowledged the request with number 0, says so again, and that makes the client send its first block; a receiving client has nothing to acknowledge |
| TftpProtocol.FinishedSenderIsSilent | src/tftpd.c:645-706 | a sender that has finished neither says nor hears anything more |
| TftpProtocol.TruncationIsIdle | src/tftpd.c:680-702 | in every reachable state, comparing acknowledgements modulo 65536 as the server does, or not, as the client does, is the same |
| TftpProtocol.LastAckIsNeverRepeated | src/tftpd.c:788-806 | a receiver that has finished says nothing more: the header that the last test looks at is never that of the repeated block, which would have passed it |
| TftpProtocol.SenderFinishesIff | src/tftpd.c:645-706 | when, exactly, the sender can still finish: it has, or the receiver has not and 65535 blocks suffice, or the last acknowledgement is in transit |
| TftpProtocol.ReachableSenderFinishesIff | src/tftp.c:1011-1091 | the same after any run from the start |
| TftpProtocol.OneLossStrands | src/tftp.c:1212-1216 | after any run at whose end only the sender has not finished, the loss of one packet keeps it from finishing for ever |
| FtpAscii.TransferStripsNul | ftpd/ftpd.c:1353-1401 | an ASCII transfer removes exactly the NULs that directly follow a CR |
| FtpAscii.IdentityIffNoCrNul | ftp/ftp.c:1128-1158 | an ASCII transfer is the identity on a file if and only if it has no CR NUL |
| FtpAscii.NoBareLfs | ftp/ftp.c:1128-1158 | no sender makes a receiver count a bare line feed |
| FtpAscii.WireHasLineEnds | ftpd/ftpd.c:1381-1392 | every line feed on the wire has a CR directly before it, and one octet is added for each |
| FtpAscii.BareLfsAreLoose | ftp/ftp.c:1128-1158 | the bare line feeds counted, on any wire, are the line feeds with no CR directly before them |
| FtpAscii.KeptCrs | ftp/ftp.c:1128-1158 | a client that keeps carriage returns takes exactly the NULs that directly follow one out of any wire |
| FtpAscii.SendMapped | ftpd/ftpd.c:1354-1380 | the mmap branch sends the wire form and counts the octets of the file |
| FtpAscii.SendGetc | ftpd/ftpd.c:1381-1392 | the getc branch sends the same octets and counts the same |
| FtpAscii.SendRequest | ftp/ftp.c:815-837 | the client sends the same octets and counts those on the wire |
| FtpAscii.SkipCrs | ftp/ftp.c:1132-1154 | the inner loop of the client, for any run of carriage returns |
| FtpAscii.ReceiveClient | ftp/ftp.c:1126-1158 | the client writes the decoded octets over its file, counts the wire and the bare line feeds |
| FtpAscii.ServerCrs | ftpd/ftpd.c:1531-1542 | the inner loop of the server, for any run of carriage returns |
| FtpAscii.ReceiveServer | ftpd/ftpd.c:1525-1558 | the server's own loops decode the same, count the same bare line feeds, and byte_count counts their turns |
| FtpAscii.TurnsCountTheFile | ftpd/ftpd.c:1526-1528 | for a file without carriage returns, byte_count is the length of the file, not of the wire |
| FtpRestart.SkipServer | ftpd/ftpd.c:1005-1030 | the server stops at the least offset whose prefix reaches the restart point on the wire, or refuses |
| FtpRestart.SkipClient | ftp/ftp.c:1091-1127 | the client stops at the least such offset of its own file, or gives up |
| FtpRestart.SameOffset | ftp/ftp.c:1090-1112 | the two offsets are equal when the files agree up to the client's |
| FtpRestart.Spliced | ftp/ftp.c:1090-1158 | without CR NUL in the rest, the spliced file is the remote file if and only if the local one was not longer |
| FtpRestart.RestartedGet | ftp/ftp.c:1090-1158 | a restarted get through both skip loops, the wire and the client's write leaves the remote file |
| FtpReplies.TelnetIsTransparent | ftp/ftp.c:476-496 | Telnet commands anywhere in the stream change nothing of the reply, and each request gets one refusal, in order |
| FtpReplies.RequestsAreRefused | ftp/ftp.c:476-496 | WILL and WONT are answered by DONT, DO and DONT by WONT, in octets, with the option that was named, anywhere in a stream |
| FtpReplies.TwoLines | ftpd/ftpd.c:1685-1721 | a reply of two lines in full, with the dash, the blank and the line ends |
| FtpReplies.TailOfLine | ftp/ftp.c:523-549 | behind its fourth character a line changes nothing that decides where a reply ends |
| FtpReplies.WholeLine | ftp/ftp.c:523-549 | code and continuation count after any line |
| FtpReplies.FreeLineEndsReply | ftp/ftp.c:542-563 | a line between the first and the last ends the reply exactly if its leading digits form the code and no dash follows |
| FtpReplies.LineFeedCutsReply | ftp/ftp.c:475-563 | a line feed in the last line of a reply of any number of lines ends it there, and leaves exactly what is behind it in the stream |
| FtpReplies.ScanClosed | ftp/ftp.c:476-563 | on a line with complete Telnet commands in it, getreply does what it does on the line without them |
| FtpReplies.TakesReplyIffNoLineFeed | ftp/ftp.c:459-574 | for any text at all in the last line, one call takes a reply of any number of lines off the stream if and only if no line feed is left in that text without its Telnet commands |
| FtpReplies.LineFeedDesynchronizes | ftpd/ftpd.c:1678-1683 | after the reply that fatal prints, the next call takes an empty line for a reply |
| FtpReplies.TakesOneReply | ftp/ftp.c:459-574 | one call takes exactly one reply of any number of lines, with its code, first digit and last line |
| FtpReplies.SplitsReplies | ftp/ftp.c:459-574 | successive calls split a stream of replies, with Telnet commands anywhere, into those replies |
| FtpControl.Control.TelnetCommand | ftp/ftp.c:476-496 | one Telnet command is consumed and answered |
| FtpControl.Control.TakePassive | ftp/ftp.c:525-541 | the passive text is laid over the start of its buffer, stays inside, and is ended by NUL when the numbers are closed |
| FtpControl.Control.GetReply | ftp/ftp.c:459-574 | the loop returns the digit, code, last line and answers that Scan gives, with the whole buffer of the passive text, closed or not, also when the connection ends |
| FtpServer.LinesPartition | ftpd/ftpd.c:1728-1757 | cutting a message into lines loses nothing and leaves no line feed in a line |
| FtpServer.Server.Reply | ftpd/ftpd.c:1685-1702 | what reply appends to the connection |
| FtpServer.Server.Lreply | ftpd/ftpd.c:1704-1721 | what lreply appends to the connection |
| FtpServer.Server.LreplyMultiline | ftpd/ftpd.c:1727-1757 | the loop prints one marked line for each line of the text |
| FtpServer.MessageIsOneReply | ftpd/ftpd.c:1727-1757 | any message of several lines with its closing line is taken by the client as one reply |
| FtpPassive.ScanDecimal | ftp/ftp.c:1306-1312 | a printed number below 2^32 is scanned back, up to the first character that is no digit |
| FtpPassive.ScanCommas | ftp/ftp.c:1336-1424 | a list of printed numbers with commas is scanned back |
| FtpPassive.KeepsNumbers | ftp/ftp.c:525-541 | the pasv scanner keeps exactly the text from the first digit to the closing parenthesis, or without one to the end of the line |
| FtpPassive.InitConnReads | ftp/ftp.c:1299-1431 | initconn gets the port from that text, and accepts an address in it only if it is the peer's |
| FtpPassive.PassiveRoundTrip | ftpd/ftpd.c:1994-2054 | for every address and port, the PASV, LPSV and EPSV replies have code 227, 228 and 229 and lead the client back to them |
| FtpPassive.PasvText | ftpd/ftpd.c:1994-2054 | the 227 reply in full: the order of the octets of address and port, and the words around them |
| FtpPassive.LpsvText | ftpd/ftpd.c:1994-2054 | the 228 reply in full, with the family and the lengths |
| FtpPassive.EpsvText | ftpd/ftpd.c:1994-2054 | the 229 reply in full |
| FtpPassive.AnyPasvNumbers | ftp/ftp.c:1412-1440 | where a 227 reply with any six numbers leads, and when it is refused |
| FtpPassive.AnyLpsvNumbers | ftp/ftp.c:1324-1368 | where a 228 reply with any nine numbers leads, and when it is refused |
| FtpPassive.AnyEpsvNumber | ftp/ftp.c:1300-1324 | where a 229 reply with any number leads, with blanks and a sign before it, however large |
| FtpPassive.OtherCodesKeepNothing | ftp/ftp.c:525-541 | a reply of one line with any other code leaves no numbers behind |
| FtpMacro.ClampIsHarmless | ftp/domacro.c:194-201 | the clamped argument number is an int and selects what the full number would |
| FtpMacro.ExpandMeans | ftp/domacro.c:185-244 | translating the text of pieces gives the arguments and characters they stand for |
| FtpMacro.EveryLineIsShown | ftp/domacro.c:185-244 | every line without an open backslash at its end is the text of such pieces |
| FtpMacro.ExpandUnquotes | ftp/domacro.c:187-189 | any text with a backslash before each character translates to itself |
| FtpMacro.ArgumentsOfACall | ftp/domacro.c:190-231 | for the call of a macro with its name and arguments: `$1` is the first argument, not the name, and `$i` the argument of the round |
| FtpMacro.OpenBackslash | ftp/domacro.c:187-189 | a backslash at the very end of a line copies the NUL: the translation is that of the line without it |
| FtpMacro.MacroLine.Lengthen | ftp/domacro.c:65-86 | the text is kept, and the offset plus the room asked for is below the length |
| FtpMacro.MacroLine.Copy | ftp/domacro.c:209-210 | an argument is copied with its terminator inside the buffer |
| FtpMacro.ReadNumber | ftp/domacro.c:194-200 | the loop reads all digits and stays in the range of an int |
| FtpMacro.MacroLine.ExpandLine | ftp/domacro.c:164-245 | behind the blanks at the start of the line, the text built in the growing buffer is the translation, terminated, with every write inside |
| TemplateTrees.SkipsTemplate | ifconfig/printif.c:1048-1161 | the quiet pass over the text of a tree stops exactly at its end and prints nothing |
| TemplateTrees.SkipsArguments | ifconfig/printif.c:1109-1144 | the arguments found are the rendered arguments: each quiet pass stops at its own brace |
| TemplateTrees.HandleMeans | ifconfig/printif.c:356-375 | each handler, run on the argument texts, does what the call means |
| TemplateTrees.PrintsMeaning | ifconfig/printif.c:1048-1161 | interpreting the text of a well-formed tree prints what the tree means and stops right behind it |
| TemplateTrees.LoneDollarOverruns | ifconfig/printif.c:1068-1081 | behind the text of a tree, a dollar sign at the end sends the scan past it, after all output of the tree, the dollar sign and the NUL |
| TemplateOutput.PutStringAppends | ifconfig/printif.c:120-146 | a text goes to the current stream, in order, and to no other |
| TemplateOutput.ColumnFollows | ifconfig/printif.c:120-137 | the column follows the cursor of a terminal with tab stops every eight columns |
| TemplateOutput.FillReaches | ifconfig/printif.c:526-527 | filling prints exactly the blanks that are missing |
| TemplateNames.FirstQueryName | ifconfig/printif.c:469-473 | `${first?}{a}{b}` does what a does for the first interface and what b does for any other; this row and the following, for the text of a call by its literal name, interpreted on all its arguments |
| TemplateNames.VerboseQueryName | ifconfig/printif.c:507-511 | `${verbose?}{a}{b}` does what a does with -v and what b does without |
| TemplateNames.FormatQueryName | ifconfig/printif.c:383-389 | `${format?}{f}{a}{b}` does what a does if there is a format f, and what b does if not |
| TemplateNames.ExistsQueryName | ifconfig/printif.c:556-574 | `${exists?}{h}{a}{b}` likewise for a handler h |
| TemplateNames.NewlineName | ifconfig/printif.c:437-442 | `${newline}` and `${\n}` print a line feed |
| TemplateNames.TabulatorName | ifconfig/printif.c:444-449 | `${\t}` prints a tabulator |
| TemplateNames.NothingName | ifconfig/printif.c:377-381 | `${}` prints nothing |
| TemplateNames.NameName | ifconfig/printif.c:631-635 | `${name}` prints the name of the interface |
| TemplateNames.PrognameName | ifconfig/printif.c:613-618 | `${progname}` prints the name of the program |
| TemplateNames.DocstrName | ifconfig/printif.c:391-402 | `${docstr}` prints the description of the format named, or of the one with the name of the interface, and ends the process if there is none |
| TemplateNames.DefnName | ifconfig/printif.c:404-416 | `${defn}` likewise for the template |
| TemplateNames.TabName | ifconfig/printif.c:515-528 | `${tab}` fills up to the column asked for, or to the next tab stop |
| TemplateNames.RepName | ifconfig/printif.c:451-467 | `${rep}{n}{a}` does what n copies of a, written one behind the other, do |
| TemplateNames.JoinName | ifconfig/printif.c:530-554 | `${join}{d}{a}{b}` does what a does, then prints d if a has printed something, then does what b does |
| TemplateNames.ErrorName | ifconfig/printif.c:598-611 | `${error}{a}{b}` does what a and b do, on standard error, and goes back |
| TemplateNames.ExitName | ifconfig/printif.c:620-629 | `${exit}` ends the process |
| TemplateNames.UnknownName | ifconfig/printif.c:356-375 | a name that is not in the table is printed as unknown |
| TemplateNames.UnknownPrints | ifconfig/printif.c:356-375 | the words around it go to standard output even where the name goes to standard error |
| TemplateNames.PlainTextPrints | ifconfig/printif.c:1058-1063 | text without dollar signs prints itself |
| TemplateNames.EscapesPrint | ifconfig/printif.c:1068-1085 | what a dollar sign before any character but `{` prints |
| TemplateNames.UnclosedPrints | ifconfig/printif.c:1086-1100 | a `${` that is never closed prints the rest of the text |
| TemplateOverrun.PassTells | ifconfig/printif.c:1048-1161 | every pass over any text, nested or not, quiet or printing, overruns only if the scan of that text runs off, and otherwise stops where the rest runs off exactly as the whole does |
| TemplateOverrun.ArgumentsTell | ifconfig/printif.c:1109-1144 | no argument that is found runs off by itself |
| TemplateOverrun.HandlerStays | ifconfig/printif.c:356-375 | no handler goes past the end of such arguments |
| TemplateOverrun.OverrunsIff | ifconfig/printif.c:1048-1161 | for every text, a quiet run goes past the end if and only if the scan runs off, and so does a printing run that no handler ends before |
| TemplateOverrun.SomeTexts | ifconfig/printif.c:1068-1093 | `x$`, `}$` and `${}{$` run off; `${x$` and `$$` do not |
| TemplateOverrun.EndsInDollar | ifconfig/printif.c:1068-1081 | only a text whose last character is a dollar sign runs off |
| TemplatePrinter.Printer.PrintInterfaceX | ifconfig/printif.c:1048-1161 | the scanner follows the function on every text, restores depth and leaves format at what is left |
| TemplatePrinter.Printer.EchoText | ifconfig/printif.c:1058-1063 | the inner loop echoes up to the end or the next dollar sign |
| TemplatePrinter.Printer.TakeArguments | ifconfig/printif.c:1109-1144 | the arguments are skipped, copied and their braces consumed |
| TemplatePrinter.Printer.Choose | ifconfig/printif.c:261-269 | select_arg interprets the chosen argument one level deeper, or nothing |
| TemplatePrinter.Printer.RepeatArg | ifconfig/printif.c:451-467 | rep interprets its argument as many times as asked |
| TemplatePrinter.Printer.JoinArgs | ifconfig/printif.c:530-554 | join puts its first argument between the others that print something |
| TemplatePrinter.Printer.ErrorArgs | ifconfig/printif.c:598-611 | error sends its arguments to standard error and goes back |
| TemplatePrinter.Printer.TabTo | ifconfig/printif.c:515-528 | tab fills up to the column |
| TemplatePrinter.Printer.FormatHandler | ifconfig/printif.c:356-375 | a call has the effect of the handler of that name |
| TemplatePrinter.Printer.PrintInterface | ifconfig/printif.c:1163-1185 | for every well-formed tree, the whole run prints its meaning, with depth 0 and nothing left; for every text, it leaves the text exactly if the scan runs off, unless the process ends |
| IcmpChecksum.SumFolds | libicmp/icmp_cksum.c:24-45 | adding in the integers and folding is one's complement addition |
| IcmpChecksum.TwoFoldsSuffice | libicmp/icmp_cksum.c:41-43 | two folds bring any non-negative int to its word |
| IcmpChecksum.SumIsSmall | libicmp/icmp_cksum.c:27-39 | the sum is bounded by the number of words |
| IcmpChecksum.Cksum | libicmp/icmp_cksum.c:24-45 | the loop computes the one's complement checksum, and for legal sizes the accumulator never leaves the signed 32-bit range |
| IcmpChecksum.ByteOrderIndependent | libicmp/icmp_cksum.c:24-45 | little- and big-endian hosts store the same two octets |
| IcmpChecksum.StandardExample | libicmp/icmp_cksum.c:24-45 | the numerical example of section 3 of RFC 1071, on a host of either byte order |
| IcmpChecksum.OddOctetIsPadded | libicmp/icmp_cksum.c:35-39 | an odd octet at the end counts as if a zero were behind it |
| IcmpEcho.GenericEncode | libicmp/icmp_echo.c:32-49 | the first bufsize octets become the message over the data that was there; too small a buffer is left alone |
| IcmpEcho.GenericDecode | libicmp/icmp_echo.c:51-80 | -1, 1 or 0, the place of the message, and the corrected checksum field, with all else unchanged |
| IcmpEcho.EncodedDecodes | libicmp/icmp_echo.c:32-80 | an encoded message decodes without complaint on a host of either byte order, with its type, identifier, sequence number and data |
| IcmpEcho.EchoDecode | libicmp/icmp_echo.c:88-93 | behind any IPv4 header of 20 to 60 octets, an encoded echo reply decodes with 0, at the length of the header, with identifier, sequence number and data in place and the buffer unchanged |
| IcmpEcho.DecoderAndStandard | libicmp/icmp_echo.c:73-78 | the verification rule of RFC 1071 accepts exactly one case more than the decoder |
| IcmpEcho.SingleWordDamage | libicmp/icmp_echo.c:73-78 | when, exactly, a change of one word goes unnoticed |
| IcmpEcho.EchoDamage | libicmp/icmp_echo.c:82-93 | the same for echo requests, across byte orders |
| PingTable.BitsAfter | ping/ping_common.h:132-153 | setting or clearing one bit of an octet changes that bit of the table and no other |
| PingTable.Ping.Set | ping/ping_common.h:136-142 | _PING_SET |
| PingTable.Ping.Clear | ping/ping_common.h:144-150 | _PING_CLR |
| PingTable.Ping.Test | ping/ping_common.h:152-153 | _PING_TST |
| PingTable.Ping.Xmit | ping/libping.c:142-192 | the bit of the next number is cleared even when sending fails; only success counts |
| PingTable.Ping.Recv | ping/libping.c:244-255 | ping counts first and takes it back for a duplicate |
| PingTable.Ping.Recv6 | ping/ping6.c:974-985 | ping6 tests first; the effect is the same |
| PingTable.Ping.Reset | ping/libping.c:128-134 | the counters start again, and the table keeps what it holds |
| PingTable.StepKeeps | ping/libping.c:142-280 | every step keeps table and counters truthful about the past |
| PingTable.FailedSendForgets | ping/libping.c:142-192 | an attempt to send that fails makes the table forget the transmission 1024 before it, and no other |
| PingTable.CountsTellTheTruth | ping/libping.c:142-280 | in every run whose replies answer current transmissions, although they carry 16 bits, num_recv counts the distinct transmissions answered and num_rept all other answers |
| PingTable.LossIsAPercentage | ping/ping.c:508-529 | in such runs nobody is accused of forging, and the loss is the percentage of the transmissions not answered, rounded down: q * xmit <= 100 * (xmit - recv) < (q + 1) * xmit |
| PingTable.LateReplies | ping/libping.c:244-255 | a reply to any transmission, however late, is called a duplicate exactly if the last transmission with its bit was answered |
| PingStatistics.NewtonStep | ping/ping_common.c:122-127 | how far one step of the iteration goes is how far its square is off |
| PingStatistics.Nsqrt | ping/ping_common.c:112-130 | terminates; zero below the precision, and otherwise 0 <= r*r - a <= prec*prec |
| PingStatistics.MeanIsBetween | ping/ping_echo.c:626-641 | the mean lies between any bounds of the samples |
| PingStatistics.VarianceBySums | ping/ping_echo.c:634-635 | mean square less squared mean is the mean squared distance from the mean |
| PingStatistics.ExtremesAreExact | ping/ping_echo.c:207-212 | when, exactly, tmin and tmax are the extremes of the samples |
| PingStatistics.PingStat.Record | ping/ping_echo.c:190-213 | the accumulators stand for the samples so far |
| PingStatistics.MeanIsAbove | ping/ping_echo.c:632-634 | when, exactly, a number is not above the printed mean of timed and untimed replies |
| PingStatistics.LeastIsBelowMeanIffAllTimed | ping/ping_echo.c:191-212 | for any number of timed replies, the least time is never above the printed mean if and only if no reply went untimed |
| PingStatistics.Echo.SendEcho | ping/ping.c:501-505 | a packet that cannot be sent ends the process, and one that is sent is counted |
| PingStatistics.Echo.HandleReply | ping/ping_echo.c:155-213 | first replies and duplicates are counted alike and timed alike, when they are long enough, so samples and counters agree |
| PingStatistics.Echo.EchoFinish | ping/ping_echo.c:626-641 | after any run with an answer, the root is taken of the true variance of the samples, which is not negative, avg <= tmax, and tmin <= avg exactly if the timed replies make up for the untimed ones |

## Left out

- EncryptOption.Start: the random IV is a parameter, and the flag that draws it only once per process (`once`) with the seeding of the random generator is not modelled.
- EncryptOption.SessionKey: the parity bits of the key are not mended; the key is any block, and the main results assume that it is not zero.
- EncryptRuns.DataPathIsFaithful: a START is not taken off the link before the session key is installed, both ends install the same key once, and the user gives no commands but to start and stop output.
- EncryptEndpoint.Endpoint.NetWrite: octets are encrypted when they are written, while the program encrypts what has gathered in the output ring when it flushes it.
- EncryptEndpoint.Endpoint.Receive: frames are delivered whole; how `telrcv` finds suboptions in the octet stream, and the flushing of the output ring before encryption starts, are not modelled.
- DES is an unknown function from schedule and block to block; Kerberos, Shishi and the parity check are foreign code.
- User commands of the encryption module other than starting and stopping output, and all diagnostic printing.
- TemplateTrees.HandleMeans: what `format`, `foreachformat` and the handlers that ask the kernel print is a parameter of the environment.
- TemplatePrinter.Printer.FormatHandler: the same parameter stands for them.
- TemplateTrees.EvalCall: `format` and `foreachformat`, whose recursion the program itself calls unbounded, and the handlers that ask the kernel are represented by a parameter that gives their output.
- TemplatePrinter.Printer.TabTo: the number formatting of `put_int` and the parsing of column arguments are parameters.
- TftpBuffers.Buffers.ReadIt: read and write errors of the files are not modelled; a write that fails part way does not occur.
- TftpProtocol.StepKeeps: the timers may run out at any time, but an end that gives up after too many of them, and ERROR packets, are left out.
- FtpAscii.ReceiveClient: hash marks, write errors and interrupts are left out.
- Restarted ASCII `put`, where the client seeks by octets and the server counts lines, and IPv6 LPSV, whose reply can exceed the buffer for passive replies.
- FtpControl.Control.GetReply: what is printed for the user is left out.
- FtpReplies.TakesOneReply: replies with code 421, on which the client drops the connection, are excluded here; `GetReply` states what happens to them.
- FtpMacro.MacroLine.ExpandLine: one line is translated; looking up the macro, executing the line and failing allocation are left out.
- IcmpChecksum.Cksum: buffers are at most 65535 octets, the largest datagram there is.
- PingTable.CountsTellTheTruth: the counters are unbounded, and which packets are accepted as replies (type and identifier) is decided outside.
- PingStatistics.Echo.EchoFinish: arithmetic is exact, and the size of `struct timeval` is taken to be 16.
- Sockets, signals, timeouts, address lookup, option parsing and login.
