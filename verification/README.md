# Zephyr samples: GATT write handler, connection bits, PWM blinky, UART line commands

A Dafny model of the sequential logic in five Zephyr sample applications.

- **Bluetooth peripheral** (`bluetooth/peripheral/src/gatt.c` and `bluetooth/peripheral/src/main.c`):
  - `write_char2` copies a GATT write into the 32-byte `char2_value` and NUL-terminates it. It refuses out-of-range writes with the ATT error "Invalid Offset" (Bluetooth Core Specification, Vol 3, Part F, section 3.4.1.1).
  - The `connected` and `disconnected` callbacks keep two bits of an atomic `state`.
  - `bt_cgs_notify` sends a two-byte notification while CONNECTED is set. `main` in main.c sends ten of them.
  - `main` in gatt.c loops forever, testing and clearing the two bits and reporting each.
- **PWM blinky** (`button_led_pwm/src/main.c`):
  - `main` first calibrates the largest period the PWM hardware accepts, halving from one second.
  - It then sweeps the period between `MIN_PERIOD` and that maximum, doubling and halving in `uint32_t` arithmetic.
- **UART commands** (`uart/src/main.c`) and **UART echo** (`uart_int/src/main.c`):
  - The interrupt callback `uart_cb` assembles received bytes into lines in the 64-byte `rx_buf`.
  - The command sample hands each line to `process_command`, which drives an LED with "LED ON", "LED OFF" and "TOGGLE".
  - The echo sample prints each line back.

## Layout

- `cstrings.dfy` (module `CStrings`): bytes and the C string a NUL-terminated buffer holds.
- `gatt.dfy` (module `Gatt`):
  - the characteristic-2 buffer as a class over an `array`, with gatt.c's `write_char2`
  - the connection bits as a class with the callbacks and gatt.c's event loop
- `peripheral.dfy` (module `Peripheral`): main.c's own guard in `write_char2`, modelled as written; `bt_cgs_notify`; the notification loop of `main`.
- `pwm.dfy` (module `PwmBlinky`): the calibration loop and the sweep loop as methods, with a specification function for one sweep step.
- `line_assembler.dfy` (module `LineAssembler`):
  - the line-level meaning of `uart_cb`'s loop (`Assemble`)
  - an independent reference split of a byte stream into lines (`Lines`, `Unterminated`)
  - the proof that the two agree
- `uart_led.dfy` (module `UartLed`): `process_command` and the command sample's receiver class over `rx_buf`/`rx_pos`.
- `uart_echo.dfy` (module `UartEcho`): the echo sample's receiver class.

Hardware and the Bluetooth stack enter only as parameters:

- `pwm_set_dt` is the predicate `accepts(period, pulse)`.
- `bt_gatt_notify`'s result is a given integer.
- `bt_enable`'s result is a given integer.
- The callbacks the stack runs while a thread sleeps are a given sequence of `ConnEvent`s.
- The bytes the UART FIFO yields in one interrupt are a given `seq<byte>`.

## Model

| member | source | states |
|---|---|---|
| CStrings.CStr | uart_int/src/main.c:21 | The text `printk("%s")` and `strcmp` see is a prefix of the buffer. It holds no NUL and ends at the first NUL, or at the end of the buffer. |
| CStrings.CStrUnique | uart/src/main.c:19 | Those three properties determine the C string uniquely. |
| CStrings.CStrOfNulFree | uart/src/main.c:19 | A NUL-free buffer is its own C string. |
| CStrings.CStrStopsAtNul | uart/src/main.c:40-41 | Storing `'\0'` at `rx_pos` makes the C string of the whole buffer equal to that of `rx_buf[..rx_pos]`, whatever stale bytes follow. |
| CStrings.CStrBeforeTerminator | bluetooth/peripheral/src/gatt.c:82-84 | Bytes after a terminator are invisible to the C string before it. |
| Gatt.Accepts | bluetooth/peripheral/src/gatt.c:77 | gatt.c's guard admits a write exactly when its terminator index `offset+len` is inside the 32-byte buffer. |
| Gatt.GattErr | bluetooth/peripheral/src/gatt.c:78 | `BT_GATT_ERR` turns a non-zero ATT error into a negative return value. |
| Gatt.Overwrite | bluetooth/peripheral/src/gatt.c:81-82 | After `memcpy` plus terminator, the length is kept. Bytes before `offset` are unchanged. `[offset, offset+len)` holds the data. Byte `offset+len` is 0. Every later byte is unchanged. |
| Gatt.OverwriteReadsBack | bluetooth/peripheral/src/gatt.c:81-84 | The value logged after a write is the C string of the old prefix followed by the new data. |
| Gatt.WriteAtZeroRoundTrip | bluetooth/peripheral/src/gatt.c:81-84 | A NUL-free write at offset 0 reads back as exactly the written data. |
| Gatt.Char2Attribute.constructor | bluetooth/peripheral/src/gatt.c:26 | `char2_value` starts as 32 zero bytes. |
| Gatt.Char2Attribute.Write | bluetooth/peripheral/src/gatt.c:73-87 | If `offset+len <= 31`, the terminator index is inside the buffer, the result is `len` and the buffer becomes `Overwrite` of the old one. Otherwise the result is `-BT_ATT_ERR_INVALID_OFFSET` and no byte changes. |
| Gatt.OnEvent | bluetooth/peripheral/src/gatt.c:42-59 | A successful connection sets CONNECTED and clears DISCONNECTED. A disconnection does the reverse. A failed connection (`err != 0`) changes nothing. The main.c callbacks at main.c:198-215 are identical. |
| Gatt.ApplyEvents | bluetooth/peripheral/src/gatt.c:61-64 | The bits after the callbacks of a sleep, in order; a run of failed connections alone leaves them unchanged. |
| Gatt.ApplyEventsAppend | bluetooth/peripheral/src/gatt.c:61-64 | Two runs of callbacks one after the other have the effect of their concatenation. |
| Gatt.ApplyEventsExclusive | bluetooth/peripheral/src/main.c:195-215 | From a state with the two bits not both set, no sequence of callbacks sets both. |
| Gatt.NoSpuriousBits | bluetooth/peripheral/src/gatt.c:40-59 | From the zeroed atomic, CONNECTED set implies some callback was `connected` with `err == 0`. DISCONNECTED set implies some callback was `disconnected`. |
| Gatt.LastEffectiveDecides | bluetooth/peripheral/src/gatt.c:42-59 | After a run of callbacks, the bits are decided by the last successful connection or disconnection alone. |
| Gatt.ConnectionState.constructor | bluetooth/peripheral/src/gatt.c:40 | `ATOMIC_DEFINE` starts with both bits clear. |
| Gatt.ConnectionState.OnConnected | bluetooth/peripheral/src/gatt.c:42-51 | The `connected` callback updates the bits as `OnEvent` says and keeps them exclusive. |
| Gatt.ConnectionState.OnDisconnected | bluetooth/peripheral/src/gatt.c:53-59 | The `disconnected` callback updates the bits as `OnEvent` says and leaves them exclusive. |
| Gatt.ConnectionState.Deliver | bluetooth/peripheral/src/gatt.c:61-64 | Running the registered callbacks for a sequence of events leaves the bits at `ApplyEvents` of the old bits. |
| Gatt.ConnectionState.TestAndClearDisconnected | bluetooth/peripheral/src/gatt.c:133 | Returns the old DISCONNECTED bit, clears it and keeps CONNECTED. |
| Gatt.ConnectionState.TestAndClearConnected | bluetooth/peripheral/src/gatt.c:137 | Returns the old CONNECTED bit, clears it and keeps DISCONNECTED. |
| Gatt.ConnectionState.Poll | bluetooth/peripheral/src/gatt.c:133-139 | One pass reports "Disconnected event" and "Connected event" exactly when the corresponding bit was set, and leaves both bits clear. |
| Gatt.ConnectionState.EventLoop | bluetooth/peripheral/src/gatt.c:132-143 | Each pass makes one report. The first pass reports the initial bits. Every later pass reports exactly what the callbacks during the previous sleep left set on cleared bits. So an event is reported at most once, and one overridden within the same sleep is not reported. |
| Gatt.OverriddenConnectionNotReported | bluetooth/peripheral/src/gatt.c:133-139 | A connection followed by a disconnection within one sleep is reported only as "Disconnected event". |
| Peripheral.MainWriteChar2 | bluetooth/peripheral/src/main.c:105-120 | main.c's guard rejects exactly `offset+len > 32`. It admits `offset+len == 32`, whose terminator store is out of bounds. Any other accepted write returns `len` and leaves `Overwrite` of the old value. |
| Peripheral.MainGuardOverrun | bluetooth/peripheral/src/main.c:112-116 | A 32-byte write at offset 0 passes main.c's guard and stores its terminator at index 32, past `char2_value`. gatt.c's guard rejects it. |
| Peripheral.GuardsDifferOnlyAtBoundary | bluetooth/peripheral/src/main.c:112 | main.c's handler completes a write in bounds exactly when gatt.c's guard accepts it. |
| Peripheral.CgsNotify | bluetooth/peripheral/src/main.c:224-244 | When CONNECTED is clear, the result is `-ENOTCONN` and nothing is sent. Otherwise exactly `[0x06, value]` is sent and the result is `bt_gatt_notify`'s. The result is 0 exactly when connected and the notify succeeded. |
| Peripheral.BitsAfterSleeps | bluetooth/peripheral/src/main.c:265-267 | The bits after the callbacks of several sleeps equal the bits after all of those callbacks run in order. |
| Peripheral.NotifyMain | bluetooth/peripheral/src/main.c:250-278 | A `bt_enable` failure returns -1 and sends nothing. With CONNECTED set after the first sleep, exactly 10 notifications go out with values 0..9 in order, otherwise none. Each one sees the CONNECTED bit as the callbacks up to it left it. On return the bits are those the callbacks of every sleep left. |
| PwmBlinky.MacroConstants | button_led_pwm/src/main.c:19-20 | The unparenthesised macros at lines 72 and 97 do not wrap. `4U * MIN_PERIOD` is 31,250,000 and `MIN_PERIOD * 2U` is 15,625,000. |
| PwmBlinky.Candidate | button_led_pwm/src/main.c:69-71 | `max_period` only ever decreases from `MAX_PERIOD` by halving. |
| PwmBlinky.CandidateIsQuotient | button_led_pwm/src/main.c:69-71 | After any number `k` of halvings, `max_period` is exactly `MAX_PERIOD / 2^k`. |
| PwmBlinky.CandidateAboveFloor | button_led_pwm/src/main.c:72-76 | A halved value is at or above `4 * MIN_PERIOD` exactly for the first five halvings. |
| PwmBlinky.Calibrate | button_led_pwm/src/main.c:69-78 | The loop stops at the first accepted candidate, and every earlier candidate was refused. It succeeds exactly after at most 5 halvings, with an accepted `max_period` in `[4*MIN_PERIOD, MAX_PERIOD]`. Otherwise it gives up after the sixth halving, below the floor. |
| PwmBlinky.NextSweep | button_led_pwm/src/main.c:92-99 | For any maximum, the new period is at most `max_period` unless it is the restart at `MIN_PERIOD * 2U`, and at least `MIN_PERIOD` unless it is the bounce to `max_period / 2U`. `dir` changes only at one of those two. |
| PwmBlinky.NextSweepInRange | button_led_pwm/src/main.c:92-99 | For a calibrated maximum and an in-range period, `period * 2U` does not wrap and the next period is in `[MIN_PERIOD, max_period]`. It is `period*2` or `period/2` with `dir` kept, or bounces to `max_period/2` with `dir` 0, or to `2*MIN_PERIOD` with `dir` 1. |
| PwmBlinky.SweepLoop | button_led_pwm/src/main.c:83-102 | Starting at `max_period` with `dir` 0, each pass uses the period from the previous pass's update. Every `pwm_set_dt` call has period in `[MIN_PERIOD, max_period]` and pulse `period/2`. The loop ends only when a call fails or the pass bound is reached. |
| PwmBlinky.PwmMain | button_led_pwm/src/main.c:46-104 | An unready device makes no call at all. Otherwise calibration makes 1 to 6 calls with periods `MAX_PERIOD / 2^j` and half-period pulses, every one but the last refused, and calibration succeeds exactly when the last is accepted. Sweeping starts only after a successful calibration, and every sweep call is in range with a half-period pulse. |
| LineAssembler.Receive | uart/src/main.c:39-45 | A terminator completes the pending line and starts an empty one. Any other byte completes nothing and extends the pending line, which keeps only its first 63 bytes. |
| LineAssembler.Assemble | uart/src/main.c:34-47 | One line is completed per `'\n'` or `'\r'`. No line exceeds 63 bytes, so `rx_pos <= 63` and `rx_buf[rx_pos] = '\0'` is in bounds. No line contains a terminator. |
| LineAssembler.AssembleSplit | uart/src/main.c:36-46 | Receiving bytes over two interrupts gives the same lines as receiving them in one. |
| LineAssembler.CrLfCompletesEmptyLine | uart_int/src/main.c:19-22 | `"\r\n"` completes the pending line and then an empty one. |
| LineAssembler.FirstTerminator | uart/src/main.c:39 | Index of the first `'\n'` or `'\r'`, or the length when there is none. |
| LineAssembler.Truncate | uart/src/main.c:43-44 | A prefix of the input: all of it when it has at most 63 bytes, otherwise exactly its first 63. |
| LineAssembler.AssembleMatchesLines | uart_int/src/main.c:19-26 | From an empty buffer, the completed lines are, in order, the first 63 bytes received between consecutive terminators. The pending line is the truncated tail after the last terminator. |
| LineAssembler.CStrsAppend | uart_int/src/main.c:21 | The C strings printed for two runs of completed lines, one after the other, are those printed for their concatenation. |
| UartLed.ProcessCommand | uart/src/main.c:18-31 | "LED ON" sets the LED, "LED OFF" clears it and "TOGGLE" inverts it. Any other string leaves it alone. |
| UartLed.CommandAlgebra | uart/src/main.c:19-27 | "LED ON" and "LED OFF" are idempotent. Two "TOGGLE"s restore the LED. |
| UartLed.MatchIsExact | uart/src/main.c:19-31 | Matching is `strcmp`, not a prefix match: any of the three commands followed by one or more further non-NUL bytes, and any proper prefix of one, leaves the LED unchanged. |
| UartLed.MatchIsCaseSensitive | uart/src/main.c:19-31 | "led on" leaves the LED unchanged. |
| UartLed.NulEndsCommand | uart/src/main.c:40-41 | A NUL received inside a line ends the compared command there. |
| UartLed.CrLfDispatch | uart/src/main.c:39-42 | After `"\r\n"`, the LED is as the command before it left it. The extra empty line changes nothing. |
| UartLed.CommandReceiver.constructor | uart/src/main.c:15-16 | `rx_buf` starts zeroed with `rx_pos` 0. The LED starts inactive, as `main` configures it at uart/src/main.c:56. |
| UartLed.CommandReceiver.ReceiveByte | uart/src/main.c:37-45 | One byte terminates and dispatches the line, or appends while `rx_pos < 63`, or is dropped. Both the buffer invariant and `rx_pos < 64` are kept. |
| UartLed.CommandReceiver.UartCb | uart/src/main.c:34-47 | The pending line becomes `Assemble`'s. The LED is the result of dispatching each completed line's C string in order. From an empty buffer, these are the reference lines of the stream. |
| UartEcho.LineReceiver.constructor | uart_int/src/main.c:12-13 | `rx_buf` starts zeroed with `rx_pos` 0. |
| UartEcho.LineReceiver.ReceiveByte | uart_int/src/main.c:17-26 | One byte prints the C string of the pending line and resets, or appends while `rx_pos < 63`, or is dropped. |
| UartEcho.LineReceiver.UartCb | uart_int/src/main.c:15-27 | One "Received:" line is printed per terminator, each the C string of a completed line, in order. From an empty buffer, these are the reference lines, and what remains pending is the truncated tail. |

## Findings

| source | as written | input that shows it | evidently intended | confidence | as-written member | corrected member |
|---|---|---|---|---|---|---|
| bluetooth/peripheral/src/main.c:112-116 | `write_char2` rejects only `offset + len > sizeof(char2_value)` (32) and then stores `'\0'` at `value[offset + len]` | `len = 32, offset = 0`: the guard passes and the terminator goes to index 32 of a 32-byte buffer | reject `offset + len > MAX_LENGTH - 1`, as gatt.c:77 does, so the terminator stays inside the buffer | not executed | Peripheral.MainWriteChar2, Peripheral.MainGuardOverrun | Gatt.Char2Attribute.Write |

## Left out

- The sensor-logging application (`lfs_sensors/`) is not part of this model. The repository describes a logging pipeline, but the code has none: the IMU thread puts readings into `imu_sensor_msgq` (lfs_sensors/src/imu_sensor.c:71-72, 197), but nothing reads that queue, the logger thread's loop body is empty (lfs_sensors/src/logger.c:45-46), and there is no rotation code. The model follows the code.
- Characteristic 2 in main.c is registered with `NULL` user data (main.c:133), so its handler writes through a null pointer. Pointers are not modelled. `Peripheral.MainWriteChar2` acts on the intended 32-byte `char2_value`.
- `read_char1`, advertising (`bt_ready`, `bt_le_adv_start`), `settings_load`, `cgs_init` and the GATT service tables are left out. They are calls into the Bluetooth stack with no logic of their own.
- The `bt_enable` failure exit of gatt.c's `main` (gatt.c:126-130) is not modelled. `Gatt.ConnectionState.EventLoop` starts at the `while (1)`.
- Every `while (1)` runs for a given number of passes: `EventLoop` runs `|sleeps|` passes and `SweepLoop` runs `passes`. Non-termination is not modelled.
- The callbacks and the application thread are modelled as taking turns: callbacks run only during `k_sleep`. Atomicity of the bit operations and interleaving inside a pass are not modelled.
- Logging (`printk`, `LOG_INF`, `LOG_ERR`), the sleep durations, the button callback in button_led_pwm and the UART welcome messages sent with `uart_poll_out` are output or timing only, and are left out. The echo's printed lines are returned as values.
- The UART samples' `device_is_ready` checks in `main` and the interrupt set-up are left out. The model starts at the callback.
- PwmBlinky.SweepLoop: `dir` is a `uint8_t` that the source only sets to 0 or 1, and it is modelled as a boolean.
- PwmBlinky.Calibrate: `pwm_set_dt` returns an error code, and the model keeps only whether it is zero.
- UartLed.ProcessCommand: the LED is the pin's logical level as a boolean. `gpio_pin_set_dt` and `gpio_pin_toggle_dt` errors are ignored, as the source ignores them.
