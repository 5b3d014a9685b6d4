# MSP flight-controller driver, modelled in Dafny

This project models `MspFcComms`, the driver of the iarc7 flight-controller
node that talks to a MultiWii-style flight controller over a serial port with
MSP v1 framing. It covers four parts:

- **Frame encoder** (`sendMessage`). It frames a message as send header, length, id,
  data section and XOR checksum. It refuses oversized data sections, writes the
  frame and waits for one response.
- **Response parser** (`receiveResponseAfterSend`). It reads the receive header,
  the length byte, then the id echo, data section and checksum together. It
  recomputes the checksum and copies the data section out.
- **Connection state machine** (`connect`, `findFc`, `disconnect`, `handleComms`).
  It has the three states Disconnected, Connecting and Connected.
- **RC translator** (`processDirectionCommandMessage`, `setArm`, `safetyLand`,
  `sendRc`, `getRawRC`, `isAutoPilotAllowed`) and the other queries (`getBattery`,
  `isArmed`, `getAttitude`). They update the eight RC channel values in place and
  send them, or ask for data and decode the response.

Modules:

- `MspCodec` (`msp_codec.dfy`): bytes, the XOR fold, the frame layout, and the
  specification of reading one response (`Receive` with its three stages).
- `MspConf` (`msp_conf.dfy`): the configuration constants as one `Config` value,
  with the relations between them that the driver relies on.
- `Serial` (`serial_port.dfy`): the serial port as a class. It holds the open flag,
  the bytes written, the bytes waiting to be read, whether writes raise, and how
  many reads complete before reads raise.
- `MspCommands` (`msp_commands.dfy`): the MSP command numbers, the message object,
  and the RC payload layout of eight little-endian 16-bit channels.
- `RcTranslator` (`rc_translator.dfy`): clamping, scaling and truncation of
  commands into channel values, and the safety-landing throttle rule.
- `FcComms` (`msp_fc_comms.dfy`): the `MspFcComms` class, whose methods change the
  link state, the port and the RC channel array in place. Every transaction is
  proved against `Exchange`, one transaction as a function of the link state and
  the port state. Lemmas characterise `Exchange`: the frame written, when it
  succeeds, what it delivers, how failures treat the link, round trips, and
  detection of corruption.

Both checksum loops are proved against the same fold, `Xor`: the send-side loop
in `sendMessage` and the receive-side loop in `receiveResponseAfterSend`. Both
run through `ChecksumOf`.

A body read that returns fewer bytes than asked drops the link
(`src/MspFcComms.cpp:449-453`). A transaction attempted while not connected
returns Ok and does nothing (`src/MspFcComms.cpp:402-408`).

The checksum covers the length byte, but corrupting the length byte is not
always detected: a shorter length can make the parser read a shorter body whose
own checksum happens to match. `MspCodec.LengthCorruptionAccepted` gives such a
frame.

The safety-landing rule's own comment says the throttle cannot rise. The code does
not enforce that, and `RcTranslator.SafetyLandCanRaiseThrottle` exhibits a
configuration and a channel value for which it rises. The same comment says the
landing throttle is effectively limited to the maximum allowed throttle. The code
does not enforce that either: it never clamps the landing throttle, and
`RcTranslator.SafetyLandCanExceedMaxThrottle` exhibits a landing above the
maximum.

## Model

| member | source | states |
|---|---|---|
| MspCodec.XorByte | src/MspFcComms.cpp:376-379 | The C `^` on `uint8_t`: each of the eight bits of the result is the XOR of the operands' bits. |
| MspCodec.Xor | src/MspFcComms.cpp:458-462 | Its defining body: the XOR of every byte of a sequence, folded from the left starting at 0, as both checksum loops fold it. |
| MspCodec.XorLaws | src/MspFcComms.cpp:376-379 | The byte XOR used by the checksum is commutative and associative, its own inverse, and has 0 as identity. |
| MspCodec.XorAppend | src/MspFcComms.cpp:376-379 | The XOR of a concatenation is the XOR of the two parts' XORs, so the checksum can be folded piece by piece. |
| MspCodec.XorUpdate | src/MspFcComms.cpp:458-469 | Replacing any one byte by a different one changes the XOR of the sequence. |
| MspCodec.Checksum | src/MspFcComms.cpp:367-382 | Its defining body: the checksum of a frame is the XOR of the length byte, the id and every data byte. |
| MspCodec.SeededChecksum | src/MspFcComms.cpp:368-379 | Seeding with length XOR id and folding in the data section gives the frame checksum, the XOR of length, id and data. |
| MspCodec.Frame | src/MspFcComms.cpp:361-382 | Its defining body: header, length byte, id, data section and checksum, in that order. Its layout is proved by FrameLayout. |
| MspCodec.FrameLayout | src/MspFcComms.cpp:361-382 | A frame is header, length byte, id, data section and checksum at fixed offsets, and is three bytes longer than header plus data. |
| MspCodec.FrameBodyXorsToZero | src/MspFcComms.cpp:368-382 | Everything after the header of a frame, checksum included, XORs to zero. |
| MspCodec.Receive | src/MspFcComms.cpp:411-484 | An accepted response started with the receive header and delivers as many bytes as its length byte says. At most three reads are made, within the read budget, and acceptance needs all three. A read raises only when the budget forbids it. |
| MspCodec.ReceiveLength | src/MspFcComms.cpp:431-436 | After the length read, an accepted response had a length byte and delivers that many bytes. Between one and three reads are made. |
| MspCodec.ReceiveBody | src/MspFcComms.cpp:437-472 | After the body read, an accepted response delivers exactly length bytes, and acceptance needs the third read to complete. |
| MspCodec.ReceiveBodyAccepts | src/MspFcComms.cpp:449-469 | The body stage accepts exactly when three reads are allowed, enough bytes are there, and the checksum matches. |
| MspCodec.ReceiveBodyDelivers | src/MspFcComms.cpp:471-472 | An accepted body delivers the bytes after the id echo, length bytes long, and consumes exactly length plus two bytes. |
| MspCodec.ReceiveAccepts | src/MspFcComms.cpp:419-472 | Reading a response accepts exactly when three reads are allowed and a well-formed response heads the queue, whatever id it echoes. |
| MspCodec.ReceiveDelivers | src/MspFcComms.cpp:471-472 | An accepted response delivers the bytes after the length and id echo, length bytes long, and leaves the rest of the queue after its checksum. |
| MspCodec.ReceiveDemotion | src/MspFcComms.cpp:419-481 | The link is dropped exactly on a read that raises, a short header, or a short body. A wrong full header or a wrong checksum keeps it. |
| MspCodec.ChecksumOfBody | src/MspFcComms.cpp:458-462 | The checksum the parser computes over a well-formed body is the one the frame carries. |
| MspCodec.ReceiveBodyRoundTrip | src/MspFcComms.cpp:437-472 | The body of an encoded frame is accepted and yields its data section, leaving what follows. |
| MspCodec.ReceiveRoundTrip | src/MspFcComms.cpp:411-484 | Reading a frame encoded with the receive header yields its data section and leaves exactly what followed it. |
| MspCodec.ReceiveBodyDetectsCorruption | src/MspFcComms.cpp:456-469 | Changing one byte of the id echo, data or checksum of a body makes the checksum fail, without dropping the link. |
| MspCodec.ReceiveDetectsCorruption | src/MspFcComms.cpp:456-469 | Changing one byte after the length of a whole frame makes reading it fail the checksum. The link is kept and the frame consumed. |
| MspCodec.LengthCorruptionAccepted | src/MspFcComms.cpp:437-472 | A frame with id 0 and data section [0, b], whose length byte is changed from 2 to 0, is accepted with an empty data section: corruption of the length is not always caught. |
| MspCommands.PackRc | src/MspFcComms.cpp:158-163 | Packing channels gives two bytes per channel. |
| MspCommands.GetRc | src/MspFcComms.cpp:108-117 | Reading channels from a response buffer gives eight values. |
| MspCommands.RcRoundTrip | src/MspFcComms.cpp:158-163 | Reading back packed channels, whatever follows them, gives the channels. |
| MspCommands.MspMessage.constructor | src/MspFcComms.cpp:160-162 | A new message carries its id and data section, and a fresh zeroed response buffer. |
| RcTranslator.Clamp | src/MspFcComms.cpp:69-80 | The clamp lies in range, keeps values already in range, and saturates at either end. |
| RcTranslator.Truncate | src/MspFcComms.cpp:92-95 | The cast to uint16_t yields the integer part of a non-negative value. |
| RcTranslator.AxisChannel | src/MspFcComms.cpp:65-95 | A channel value always lies between the values of the two ends of its range. |
| RcTranslator.AxisChannelSaturates | src/MspFcComms.cpp:69-95 | Commands beyond a range end give that end's value; commands inside are scaled and cast directly. |
| RcTranslator.AxisChannelMonotone | src/MspFcComms.cpp:65-95 | With a non-negative scale, a larger command never gives a smaller channel value. |
| RcTranslator.DirectionChannels | src/MspFcComms.cpp:65-98 | A direction command leaves channels 4 to 7 unchanged. |
| RcTranslator.CurrentThrottle | src/MspFcComms.cpp:38-39 | The current throttle inverts the throttle scaling: scaling it again gives back the raw channel value. |
| RcTranslator.SafetyThrottle | src/MspFcComms.cpp:38-57 | Its defining body: the minimum throttle when the current throttle is below the minimum plus 0.01, and otherwise the landing throttle, scaled and cast. SafetyLandThrottle relates it to direction-command channels. |
| RcTranslator.SafetyLandChannels | src/MspFcComms.cpp:31-61 | A safety landing zeroes channels 0, 1 and 3 and leaves channels 4 to 7 unchanged. |
| RcTranslator.SafetyLandThrottle | src/MspFcComms.cpp:38-57 | When the current throttle is below the minimum plus 0.01, the landing throttle is the direction-command channel for the minimum throttle. Otherwise, and only when the landing throttle lies within [minimum, maximum], it is the direction-command channel for the landing throttle. |
| RcTranslator.MinimumThrottleReadsBack | src/MspFcComms.cpp:38-47 | With a positive throttle scale, the minimum throttle channel reads back as a throttle below the minimum plus 0.01. |
| RcTranslator.SafetyLandIdempotentAtMinimum | src/MspFcComms.cpp:31-61 | Once the throttle is at the minimum, a second safety landing changes no channel. |
| RcTranslator.SafetyLandCanRaiseThrottle | src/MspFcComms.cpp:33-50 | A throttle just above the minimum goes up to the safety-landing throttle, so the "not higher than before" comment is not enforced. |
| RcTranslator.SafetyLandCanExceedMaxThrottle | src/MspFcComms.cpp:34-57 | With a throttle range of [0, 0.5] and a landing throttle of 0.8, a landing sets the channel to 1800. A direction command for 0.8 gives 1500, so the landing throttle is not limited to the maximum. |
| RcTranslator.RollScenario | src/MspFcComms.cpp:69-92 | With scale 500 about 1500, roll 0.5 gives channel value 1750. |
| Serial.SerialPort.Write | src/MspFcComms.cpp:384-395 | A write raises on a closed or faulty port and otherwise appends the frame to what was written. |
| Serial.SerialPort.Read | src/MspFcComms.cpp:419-442 | A read raises on a closed port or once the read budget is spent. Otherwise it consumes and returns at most the bytes asked for. |
| FcComms.Exchange | src/MspFcComms.cpp:349-409 | A transaction returns Ok exactly when not connected or when data is delivered. Delivered data came from a response starting with the receive header, and its length is that response's length byte. |
| FcComms.CopyOut | src/MspFcComms.cpp:471-472 | Copying out overwrites the start of the buffer with the data and keeps the rest. |
| FcComms.ExchangeNotConnected | src/MspFcComms.cpp:402-408 | When not connected, a transaction returns Ok and changes nothing. |
| FcComms.ExchangeOversized | src/MspFcComms.cpp:353-358 | An oversized data section is an error, with nothing written and the link kept. |
| FcComms.ExchangeWriteRaises | src/MspFcComms.cpp:384-395 | A write that raises is an error that drops the link, with nothing read. |
| FcComms.ExchangeWritesFrame | src/MspFcComms.cpp:361-386 | The frame written is header, length, id, data and the checksum of length, id and data. It is `nonDataLength` bytes longer than the data and XORs to zero after the header. |
| FcComms.ExchangeSucceeds | src/MspFcComms.cpp:397-400 | A connected transaction succeeds exactly when the data fits, the write and all three reads complete, and a well-formed response heads the queue, whatever id it echoes. |
| FcComms.ExchangeDelivers | src/MspFcComms.cpp:471-472 | A successful transaction keeps the link, delivers the response's data section, and consumes exactly that response. |
| FcComms.ExchangeErrorClassification | src/MspFcComms.cpp:419-469 | The link is dropped exactly on a raising read, a short header or a short body. A wrong full header or a wrong checksum is an error that keeps it. |
| FcComms.ExchangeRoundTrip | src/MspFcComms.cpp:397-408 | A well-formed response, with any id echo, is delivered whole. The link is kept and what followed it stays queued. |
| FcComms.ExchangeCorrupted | src/MspFcComms.cpp:456-469 | A response with one byte after its length corrupted is an error. The link is kept and the response consumed. |
| FcComms.ExchangeReceives | src/MspFcComms.cpp:397-400 | Reading the response after writing the frame completes the transaction as `Exchange` says. |
| FcComms.SendRcFrame | src/MspFcComms.cpp:158-163 | The frame an RC transaction writes has length byte 16 and id MSP_SET_RAW_RC, and its data section decodes to the channels. |
| FcComms.RawRcRoundTrip | src/MspFcComms.cpp:108-117 | A well-formed MSP_RC response carrying packed channels is accepted, and its data decodes to those channels. |
| FcComms.ChecksumOf | src/MspFcComms.cpp:458-462 | The running XOR loop computes the seed XOR the fold of the bytes. |
| FcComms.FirstMatch | src/MspFcComms.cpp:305-320 | The index found is that of the first device with the hardware id; none is found only when no device has it. |
| FcComms.MspFcComms.constructor | src/MspFcComms.cpp:26-29 | A new driver is disconnected, has no port, and holds the given channel values. |
| FcComms.MspFcComms.FindFc | src/MspFcComms.cpp:282-330 | Discovery returns Ok exactly when some device has the hardware id, and yields the port of the first such device. |
| FcComms.MspFcComms.Connect | src/MspFcComms.cpp:239-280 | Ends Connected with Ok exactly when a device is found and its port opens. Every other path, including a raising open, ends Disconnected with an error. |
| FcComms.MspFcComms.Disconnect | src/MspFcComms.cpp:205-236 | Always ends Disconnected with Ok. It closes the port when it was connected or connecting, and from Disconnected it does not touch the port. |
| FcComms.MspFcComms.HandleComms | src/MspFcComms.cpp:332-344 | A closed port drops the link with an error; otherwise nothing changes. |
| FcComms.MspFcComms.SendMessage | src/MspFcComms.cpp:349-409 | Return code, link state, port state and response buffer are those of `Exchange` for the message's id and data section. |
| FcComms.MspFcComms.SendRc | src/MspFcComms.cpp:158-163 | Sends the packed channels as an MSP_SET_RAW_RC transaction, as `Exchange` says. |
| FcComms.MspFcComms.ProcessDirectionCommand | src/MspFcComms.cpp:65-98 | The channels become `DirectionChannels` of the old channels and the command, and are then sent. |
| FcComms.MspFcComms.SetArm | src/MspFcComms.cpp:100-105 | Only channel 4 changes, to 2000 when arming and 1000 otherwise; then the channels are sent. |
| FcComms.MspFcComms.SafetyLand | src/MspFcComms.cpp:31-61 | The channels become `SafetyLandChannels` of the old channels, and are then sent. |
| FcComms.MspFcComms.GetRawRc | src/MspFcComms.cpp:108-117 | On Ok the output array holds the channels decoded from the MSP_RC response; otherwise it is unchanged. |
| FcComms.MspFcComms.IsAutoPilotAllowed | src/MspFcComms.cpp:135-156 | On Ok, allowed is whether the switch channel read back is strictly above the switch midpoint; otherwise it is unchanged. |
| FcComms.MspFcComms.GetBattery | src/MspFcComms.cpp:165-175 | On Ok the voltage is decoded from the MSP_ANALOG response; otherwise it is unchanged. |
| FcComms.MspFcComms.IsArmed | src/MspFcComms.cpp:177-189 | On Ok the armed flag is decoded from the MSP_STATUS response; otherwise it is unchanged. |
| FcComms.MspFcComms.GetAttitude | src/MspFcComms.cpp:192-202 | On Ok the three angles are decoded from the MSP_ATTITUDE response; otherwise the array is unchanged. |
| FcComms.MspFcComms.ReceiveResponseAfterSend | src/MspFcComms.cpp:411-484 | Return code, link state, port state and response buffer are those of `Received`, that is of `Receive` on the port's queue. |
| FcComms.MspFcComms.ReceiveResponseLength | src/MspFcComms.cpp:431-436 | The length stage ends as `ReceiveLength` says. |
| FcComms.MspFcComms.ReceiveResponseBody | src/MspFcComms.cpp:437-472 | The body stage, including the checksum loop and the copy, ends as `ReceiveBody` says. |

## Left out

- Logging and `ROS_ASSERT_MSG` have no behavioural content. The `default:` branch of `disconnect` cannot be reached with three link states.
- The serial library is foreign I/O, replaced by the `SerialPort` class:
  - The port listing is a parameter of `Connect` and `FindFc`.
  - Opening a port is a parameter that either raises or yields a port state.
  - A raising `list_ports` is not modelled.
  - Baud rate and timeouts are not modelled; a timed-out read returns fewer bytes.
- A read raises either entirely or not at all. A read that raises after consuming part of the queue ends the same way (error, link dropped) and is not modelled separately.
- `printRawRC` is a debug formatter built on `snprintf` and is not modelled.
- Doubles are modelled as exact reals. Rounding of IEEE-754 arithmetic and casts of negative or too-large values to `uint16_t` are not modelled: the configuration requires every range end to map into `uint16_t`.
- The payload decoders `getVolts`, `getArmed` and `getAttitude` live in `MspCommands.hpp`, which is not part of this model. They are function parameters of `GetBattery`, `IsArmed` and `GetAttitude`.
- `packRc` and `getRc` are modelled by the MSP layout of eight little-endian 16-bit channels.
- The MSP command numbers are those of the MSP v1 protocol.
- The constants in `CommonConf.hpp` and `MspConf.hpp` are not part of this model. They are the fields of `Config`, constrained only by the relations the driver relies on.
- `include/iarc7_fc_comms/PX4FcComms.hpp` declares another driver with no bodies and is not modelled.
- FcComms.MspFcComms.ReceiveResponseAfterSend requires that a response carrying the receive header announces a data section no longer than the response buffer (`Config.LengthFits`). The code copies that many bytes into a buffer of `kMspMaxDataLength` bytes without checking. A longer announcement, including 254 and 255, where the `uint8_t` body length wraps, would write past the buffer, and the model does not represent that.
- FcComms.MspFcComms.SendMessage and the methods built on it require the same of the port's queue, through `Ready`.
- Response buffers of newly made messages start zeroed. The C++ message objects' initial contents are not part of this model, and an Ok result from a transaction that was not connected decodes that zeroed buffer.
- The initial RC channel values are a constructor parameter; the header that sets them is not part of this model.
- RcTranslator.SafetyLandIdempotentAtMinimum assumes a positive throttle scale.
- FcComms.MspFcComms.ReceiveResponseAfterSend is split into three stage methods (header, length, body). Together they perform the reads in the source's order.
- The id echo is compared to the sent id only for logging, so `ReceiveResponseAfterSend` does not use its `packetId` parameter.
- MspCodec.ReceiveDelivers: the incoming queue is fixed for the whole transaction, and bytes arriving between two reads are not modelled. So a short length read always leads to a short body read, and an accepted response never has its link flagged as lost. In the source, a length read that times out can be followed by a completed two-byte body read of late bytes, which returns Ok with the link already dropped (`src/MspFcComms.cpp:433-436`, 458-483).
- MspCodec.ReceiveDemotion: for the same reason, it classifies link drops only for a queue fixed for the whole transaction. The path where the link is dropped and the call still returns Ok cannot occur in the model.
- FcComms.ExchangeDelivers: for the same reason, "a successful transaction keeps the link" holds only for a queue fixed for the whole transaction.
- Serial.SerialPort.Write: a write either raises or writes the whole frame. A short write after a timeout, whose count the source ignores (`src/MspFcComms.cpp:386`), is not modelled.
- FcComms.ExchangeErrorClassification: for the same reason, its classification of link drops holds only for a queue fixed for the whole transaction.
- FcComms.MspFcComms.HandleComms requires a port. The source dereferences the port without a check (`src/MspFcComms.cpp:336`), and the port is null until `connect` creates it (lines 26, 256). A call before any connection dereferences a null port, which the model excludes.
- RcTranslator.MinimumThrottleReadsBack assumes a positive throttle scale. With a negative scale the cast can round the other way, and the minimum throttle channel need not read back below the minimum plus 0.01.
