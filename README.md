# NovaXR UDP emulator — protocol engine

BrainFlow's NovaXR emulator is a UDP server that stands in for the board in tests. It is a thread object. Three
of its fields hold the protocol state:
- `state`: `wait` or `stream`;
- `addr`: the peer, which is the last sender;
- `package_num`: a sequence counter that cycles through 0..254.

The other fields it sets in `__init__` are the socket, the bind address and port, the constant `package_size`
and the shutdown flag. They are covered under "## Left out".

Each iteration of its `run` loop does three things:
1. It receives at most one datagram and records its sender as the peer.
2. It switches to streaming on `b'b'` and back to waiting on `b's'`, and ignores anything else.
3. While streaming, it sends one 1440-byte datagram. The datagram is twenty 72-byte packets. Each packet holds a
   sequence byte, 63 random bytes and an 8-byte timestamp. The sequence counter counts modulo 255.

This project models that loop in Dafny (`novaxr_udp.dfy`, module `NovaXR`; `wrappers.dfy` holds the `Option`
type):

- **The command machine, as pure functions.** `ParseMessage` and `Transition` model the `State`/`Message` enums
  and the `if`/`elif` on the received bytes.
- **The counter and the framer.** The counter rule is `NextPackageNum` and `PackageNumAfter`. The bytes a batch
  must contain are the specification functions `Packet` and `Batch`.
- **One iteration and a run of iterations, as values.** `StepSpec` and `RunSpec` work on `Emu`, which holds the
  three fields. The environment's side of an iteration is a `Tick`:
  - the datagram received, or `None` for a receive timeout;
  - the random bytes and timestamp bytes for each of the twenty packets.
- **The emulator object itself.** It is the class `NovaXREmulator`:
  - `Step` updates the fields in place, as `run` does.
  - `BuildBatch` and `AppendPacket` build the datagram by appending, with the source's nested loops and its
    increment-then-reset counter update.
  - `Run` performs the loop for a list of ticks.

  `Step` and `Run` are proved to leave exactly the state and outputs that `StepSpec` and `RunSpec` describe,
  so the lemmas about those functions hold for the object. `BuildBatch` is proved to build exactly `Batch` and
  to advance the counter as `PackageNumAfter` does. `AppendPacket` is proved to append exactly one `Packet` and
  to advance the counter as `NextPackageNum` does. The object's invariant `Valid` keeps the counter in 0..254,
  and it requires a known peer whenever the object is streaming. So `Step` never returns a datagram without a
  destination.

Three facts about the code shape the model:
- **The number of random bytes.** A packet carries 63 random bytes, appended by
  `for i in range (1, self.package_size - 8)`. So a packet is 1 + 63 + 8 = 72 bytes, which is `package_size`.
- **Sending before a peer is known.** `sendto` would be given `None` and would raise an error that is not
  caught. So `Outbound.dest` is an `Option`. `InitialNeverSendsWithoutPeer` shows this cannot happen from the
  initial fields: `state` only becomes `stream` on a received datagram, and receiving a datagram also sets `addr`.
- **The third batch.** Start from the initial fields, receive a start command, and then only receive timeouts.
  The third batch then begins at sequence byte 40. This is `StartThenTimeouts` with `i = 2`, `j = 0`. A later
  start command does not reset the counter, so batches after a restart continue its count.

## Model

| member | source | states |
|---|---|---|
| NovaXR.ParseMessage | emulator/brainflow_emulator/novaxr_udp.py:19-21 | a datagram is recognised as a command exactly when it is that command's one-byte encoding (`b'b'` or `b's'`) |
| NovaXR.Transition | emulator/brainflow_emulator/novaxr_udp.py:65-72 | `b'b'` gives `stream`, `b's'` gives `wait`, and any other bytes (the empty datagram included) leave the state as it was |
| NovaXR.TransitionIgnoresPrior | emulator/brainflow_emulator/novaxr_udp.py:65-68 | a recognised command decides the next state whatever the prior state was: start gives `stream`, stop gives `wait` |
| NovaXR.TransitionIdempotent | emulator/brainflow_emulator/novaxr_udp.py:65-72 | receiving the same datagram twice leaves the same state as receiving it once |
| NovaXR.TransitionChangeMeansCommand | emulator/brainflow_emulator/novaxr_udp.py:65-72 | if the state changed, the datagram was the start command (from `wait`) or the stop command (from `stream`) |
| NovaXR.NextPackageNum | emulator/brainflow_emulator/novaxr_udp.py:80-82 | the counter after one packet stays in 0..254 |
| NovaXR.NextPackageNumRule | emulator/brainflow_emulator/novaxr_udp.py:80-82 | the next counter matches the source's rule (increment, then reset to 0 when divisible by 255) and equals `(n + 1) % 255` |
| NovaXR.PackageNumAfter | emulator/brainflow_emulator/novaxr_udp.py:78-82 | the counter after any number of packets stays in 0..254, so 255 is never emitted |
| NovaXR.PackageNumAfterMod | emulator/brainflow_emulator/novaxr_udp.py:78-82 | counting `k` packets from `n` gives `(n + k) % 255` |
| NovaXR.PackageNumAfterSucc | emulator/brainflow_emulator/novaxr_udp.py:78-82 | one packet more is one counter step more |
| NovaXR.PackageNumAfterAdd | emulator/brainflow_emulator/novaxr_udp.py:78-82 | counting `a` packets, then `b` more, is counting `a + b` packets |
| NovaXR.Packet | emulator/brainflow_emulator/novaxr_udp.py:79-86 | a packet is 72 bytes: byte 0 is the sequence byte, bytes 1..63 are the random bytes, bytes 64..71 are the timestamp |
| NovaXR.Batch | emulator/brainflow_emulator/novaxr_udp.py:77-86 | a run of packets is 72 bytes per packet |
| NovaXR.BatchSnoc | emulator/brainflow_emulator/novaxr_udp.py:78-86 | appending a packet at the end of a batch gives that packet the counter after all the packets before it |
| NovaXR.BatchLayout | emulator/brainflow_emulator/novaxr_udp.py:77-86 | packet `j` sits at offset `72*j`: its sequence byte is the counter after `j` packets, followed by its 63 random bytes at `72*j+1..72*j+63` and its 8 timestamp bytes at `72*j+64..72*j+71` |
| NovaXR.BatchSequenceBytes | emulator/brainflow_emulator/novaxr_udp.py:78-82 | within a datagram, no sequence byte is 255, and each packet's sequence byte is the previous packet's plus one, modulo 255 |
| NovaXR.StepSpec | emulator/brainflow_emulator/novaxr_udp.py:62-88 | one iteration. A received datagram sets `addr` to its sender and applies the transition; a timeout changes neither. A datagram is sent exactly when the new state is `stream`, so the command received in an iteration decides whether that iteration sends. A sent datagram is the `Batch` of the twenty packets built from the counter, random bytes and timestamp bytes of that iteration. It is 1440 bytes long, goes to `addr`, and advances the counter by 20 packets. In `wait` the counter is unchanged |
| NovaXR.RunSpec | emulator/brainflow_emulator/novaxr_udp.py:60-88 | a run of iterations gives one send-or-nothing result per iteration and keeps the counter in 0..254 |
| NovaXR.StepSequenceBytes | emulator/brainflow_emulator/novaxr_udp.py:76-82 | packet `j` of a datagram sent by an iteration carries the counter after `j` packets from the counter at the start of that iteration |
| NovaXR.StepCounter | emulator/brainflow_emulator/novaxr_udp.py:76-82 | an iteration advances the counter by 20 packets if it sent and by none otherwise |
| NovaXR.QuietWithoutStart | emulator/brainflow_emulator/novaxr_udp.py:65-76 | an idle emulator that never receives `b'b'` sends nothing, stays idle and keeps its counter |
| NovaXR.StopSilences | emulator/brainflow_emulator/novaxr_udp.py:67-76 | a run that begins with `b's'`, from any prior state, and receives no `b'b'` after it sends nothing |
| NovaXR.QuietUntilStart | emulator/brainflow_emulator/novaxr_udp.py:65-76 | an idle emulator sends nothing in the iterations before the first `b'b'` it receives, whatever comes later |
| NovaXR.StopSilencesUntilStart | emulator/brainflow_emulator/novaxr_udp.py:67-76 | a `b's'` received in any iteration `i` of a run, from any prior state, silences every iteration from `i` up to the next `b'b'` |
| NovaXR.RunAppend | emulator/brainflow_emulator/novaxr_udp.py:59-90 | running two lists of ticks one after the other is running the first, then the second from the fields the first left |
| NovaXR.RunPrefix | emulator/brainflow_emulator/novaxr_udp.py:59-90 | the first `k` iterations of a run send what a run of only those `k` ticks sends |
| NovaXR.RunSuffix | emulator/brainflow_emulator/novaxr_udp.py:59-90 | the iterations from `i` on send what a run of only those ticks sends, started from the fields the first `i` iterations left |
| NovaXR.RunAt | emulator/brainflow_emulator/novaxr_udp.py:59-90 | iteration `i` of a run sends what one `StepSpec` sends from the fields the first `i` iterations left |
| NovaXR.RunPayload | emulator/brainflow_emulator/novaxr_udp.py:76-86 | the datagram sent by iteration `i` of a run is the `Batch` of that iteration's random and timestamp bytes, numbered from the counter the earlier iterations left |
| NovaXR.RunCounter | emulator/brainflow_emulator/novaxr_udp.py:76-82 | after a run, the counter has advanced by 20 packets per datagram sent |
| NovaXR.CounterFromInitial | emulator/brainflow_emulator/novaxr_udp.py:55-82 | starting from the initial fields, after `k` datagrams have been sent the counter is `(20*k) % 255` |
| NovaXR.RunSequenceBytes | emulator/brainflow_emulator/novaxr_udp.py:76-82 | packet `j` of the datagram sent in iteration `i` carries the counter after all packets of the earlier datagrams plus the `j` before it in its own datagram |
| NovaXR.SequenceBytesAcrossBatches | emulator/brainflow_emulator/novaxr_udp.py:76-82 | when iteration `i2` is the next after `i` to send, the first sequence byte it sends is the last one `i` sent plus one, modulo 255, and neither is 255 |
| NovaXR.SentSplit | emulator/brainflow_emulator/novaxr_udp.py:76-88 | the number of datagrams sent by a run split in two is the sum of the two parts' numbers |
| NovaXR.StreamsThroughTimeouts | emulator/brainflow_emulator/novaxr_udp.py:73-76 | a streaming emulator that receives nothing sends in every iteration |
| NovaXR.StartThenTimeouts | emulator/brainflow_emulator/novaxr_udp.py:53-82 | from the initial fields, `b'b'` followed by receive timeouts sends a 1440-byte datagram in every iteration, and packet `j` of iteration `i` carries sequence byte `(20*i + j) % 255` |
| NovaXR.AddrNeverCleared | emulator/brainflow_emulator/novaxr_udp.py:62-74 | once a peer is known, it stays known |
| NovaXR.AddrIsLatestSender | emulator/brainflow_emulator/novaxr_udp.py:62-74 | after a run, the peer is the sender of the last datagram received, whether or not it was recognised |
| NovaXR.KeepsAddrOnTimeouts | emulator/brainflow_emulator/novaxr_udp.py:73-74 | receive timeouts change neither the state nor the peer |
| NovaXR.NeverSendsWithoutPeer | emulator/brainflow_emulator/novaxr_udp.py:62-88 | "streaming implies a known peer" holds throughout a run, and every datagram sent has a destination |
| NovaXR.InitialNeverSendsWithoutPeer | emulator/brainflow_emulator/novaxr_udp.py:53-88 | starting from the initial fields, `sendto` is never given an absent address |
| NovaXR.NovaXREmulator.constructor | emulator/brainflow_emulator/novaxr_udp.py:53-55 | the initial fields: state `wait`, no peer, counter 0 |
| NovaXR.NovaXREmulator.Step | emulator/brainflow_emulator/novaxr_udp.py:62-88 | one iteration updates the fields in place and returns the datagram to send, exactly as `StepSpec` describes, keeping the counter in 0..254 and the peer known while streaming, so any datagram it returns has a destination |
| NovaXR.NovaXREmulator.BuildBatch | emulator/brainflow_emulator/novaxr_udp.py:77-86 | the twenty-packet loop builds exactly `Batch` from the counter's old value and advances the counter by 20 packets |
| NovaXR.NovaXREmulator.AppendPacket | emulator/brainflow_emulator/novaxr_udp.py:79-86 | one pass of the packet loop appends exactly one `Packet` stamped with the counter's old value, and moves the counter one step |
| NovaXR.NovaXREmulator.Run | emulator/brainflow_emulator/novaxr_udp.py:59-90 | the loop run over a list of ticks leaves the fields and the sent datagrams that `RunSpec` describes |

## Left out

- Sockets are not modelled: `socket`, `bind`, `settimeout`, `recvfrom`, `sendto`, and the swallowed send timeout. A received datagram is an input of the iteration. A send is the iteration's returned `Outbound` value.
- `recvfrom (128)` is not modelled. Received datagrams are assumed to be at most 128 bytes long, through the precondition `ValidTick`.
- The thread is not modelled: `threading.Thread`, the `keep_alive` shutdown flag, `start` and `join`. These are concurrency. The loop is modelled as running once per element of a finite list of ticks, and shutdown timing is not modelled.
- `random.randint (0, 255)` is not modelled. It is nondeterministic, so its values are inputs of type `Byte` (0..255), 63 per packet.
- `time.time ()` and `struct.pack ("d", ...)` are not modelled. They are a host-endian floating-point encoding of the clock, so each timestamp is 8 opaque input bytes per packet.
- The exception that `sendto` would raise for an absent `addr` is not modelled. `Outbound.dest` is an `Option` instead, and `InitialNeverSendsWithoutPeer` shows the case does not arise from the initial fields.
- Logging is not modelled, nor is the socket timeout of 0.1 s.
- `test_socket`, `run_socket_server`, `main` and the `emulate_common` imports are not modelled. They are test-harness code around the emulator, not part of it.
- `local_ip`, `local_port` and `package_size` are not modelled as fields. They are never updated: the address is only used for `bind`, and `package_size` (72) appears as a literal in the packet layout.
