# WeatherWatch display synchroniser, in Dafny

A model of the state synchroniser in `src/weather-app.c` of WeatherWatch, a
Pebble watch face with weather. The companion phone app pushes AppSync tuples
keyed TEMPERATURE=0, CONDITIONS=1, CITY=2 and ICON=3. The watch's changed
handler writes each one to its text layer, or turns its icon code 'a'..'v'
into a bitmap resource through the `ICON_RES_IDS` table. The error handler
shows "Error" and the error icon. The minute tick drops the leading '0' of a
12-hour time.

Modules:

- `Types` (types.dfy): `uint8`, `uint32`, and `Option` for a pointer that may be NULL.
- `Icons` (icons.dfy): the resources, `ICON_RES_IDS`, the index `c - 'a'` and
  the table's inverse `CodeOf`.
- `Sync` (sync.dfy): the display state as a value (`Screen`). Each callback is
  a function on it (`SetIcon`, `OnChanged`, `OnError`, `Step`), and `Run`
  models the event loop running callbacks one after another. `Writes` and
  `LastWrite` are a reference definition ("a field shows what the last
  callback addressing it wrote"). Lemmas tie `Run` to that definition.
- `WeatherApp` (app.dfy): class `Watch`. Its fields are the globals the
  callbacks update: the three texts, `icon_bitmap`, the bitmap the icon layer
  shows, and a count of live icon bitmaps. Each method is proved to change the
  object exactly as the matching `Sync` function changes a `Screen`.
- `TimeText` (timetext.dfy): the six-character `time_text` buffer, the
  conditional `memmove` as an in-place method on an array, and what the time
  layer then shows.

Calls into the platform become field updates:

- `text_layer_set_text` is modelled as storing a copy of the text in a field (the layer itself keeps the pointer; see "## Left out").
- `gbitmap_create_with_resource` sets `iconBitmap` and increments `liveBitmaps`.
- `gbitmap_destroy` decrements `liveBitmaps`.
- `bitmap_layer_set_bitmap` sets `shown`.

`strftime` and `clock_is_24h_style` are inputs: the formatted buffer and the
`is24h` flag.

Start-up (`Watch.Init`, `Sync.Initial`) follows the order of `init()`.
`window_stack_push` runs `window_load`, which calls `set_icon('a')`. Then
`app_sync_init` is given the four initial tuplets. Pebble's AppSync delivers
initial values through the changed handler, so the model applies them as four
`OnChanged` calls. As a result `set_icon('a')` runs twice at start-up. Each
time the previous bitmap is destroyed first, so one bitmap is live afterwards.

## Model

| member | source | states |
|---|---|---|
| Icons.IconIndex | src/weather-app.c:64 | `c - FIRST_ICON_VALUE` is a valid index into the 22-entry table exactly when c is in 'a'..'v' |
| Icons.ResourceOf | src/weather-app.c:28-54 | the resource loaded for code c is the table entry whose position (its letter in the table) is c |
| Icons.TableLayout | src/weather-app.c:29-54 | entry i of `ICON_RES_IDS` is the resource of letter 'a' + i, for each of the 22 entries |
| Icons.CodeRoundTrip | src/weather-app.c:28-54 | every resource in the table is selected by its own code: looking up the table with `CodeOf(r)` gives back r |
| Icons.ResourceOfInjective | src/weather-app.c:29-54 | two codes select the same icon if and only if they are the same code |
| Icons.NamedCodes | src/weather-app.c:31-32 | 'a' selects the refresh icon and 'b' the error icon |
| Sync.SetIcon | src/weather-app.c:57-66 | after set_icon exactly one bitmap is live, it is the resource of c and the icon layer shows it; the texts are untouched |
| Sync.OnChanged | src/weather-app.c:68-85 | the handler keeps the bitmap bookkeeping consistent; key 3 leaves exactly one bitmap live; every other key leaves the count as it was |
| Sync.FieldOfKey | src/weather-app.c:20-23 | keys 0..3 address the four fields; there is no field for keys above 3 |
| Sync.KeyDispatch | src/weather-app.c:20-23 | keys 0, 1, 2 and 3 address temperature, conditions, city and icon respectively; keys 0, 1 and 2 replace exactly their own text with the tuple's string |
| Sync.ChangedFrame | src/weather-app.c:70-84 | keys 0, 1 and 2 set temperature, conditions or city to the tuple's string; key 3 shows the icon of the tuple's byte; no other field changes; keys above 3 change nothing at all |
| Sync.OnError | src/weather-app.c:87-92 | from any consistent state (every reachable state is one): conditions read "Error", the error icon is shown, one bitmap is live, temperature and city are unchanged |
| Sync.OnErrorIdempotent | src/weather-app.c:87-92 | a second error callback leaves the whole state, the live-bitmap count included, as the first left it |
| Sync.OnErrorForgetsPast | src/weather-app.c:87-92 | the state after the error fallback depends only on the temperature and city before it |
| Sync.StepFrame | src/weather-app.c:68-92 | every callback sets each field it writes to what it writes and leaves every other field as it was |
| Sync.Run | src/weather-app.c:57-92 | any sequence of callbacks keeps the bitmap handle, the shown bitmap and the live count consistent |
| Sync.RunLastWrite | src/weather-app.c:68-92 | after any sequence of callbacks each field shows what the last callback addressing it wrote, or its earlier content if none did |
| Sync.RunKeepsOneBitmap | src/weather-app.c:57-66 | once one bitmap is live, any number of further callbacks leave exactly one live |
| Sync.Initial | src/weather-app.c:214-227 | the start-up state (window_load's set_icon('a'), then the four initial tuplets) is consistent |
| Sync.InitialState | src/weather-app.c:214-219 | after start-up: temperature "N/A", conditions "Please wait...", city "N/A", the refresh icon shown and one bitmap live |
| Sync.TemperatureThenError | src/weather-app.c:72-92 | from start-up, a temperature update and then an error give that temperature, "Error", the error icon and city "N/A" |
| WeatherApp.Watch.Init | src/weather-app.c:197-227 | start-up (with window_load's set_icon('a') at line 146) leaves the object in the state `Sync.Initial` describes: the initial texts, the refresh icon and one live bitmap |
| WeatherApp.Watch.SetIcon | src/weather-app.c:57-66 | updates the object as `Sync.SetIcon` updates the state; the old bitmap is destroyed before the new one is created, so the most bitmaps ever live at once (`peakLive`) is one; afterwards one bitmap is live and it is the one shown |
| WeatherApp.Watch.OnChanged | src/weather-app.c:68-85 | updates the object as `Sync.OnChanged` updates the state |
| WeatherApp.Watch.OnError | src/weather-app.c:87-92 | shows "Error" and the error icon, keeps temperature and city, leaves one bitmap live |
| TimeText.CStr | src/weather-app.c:194 | the text the time layer shows: the buffer's characters before its first NUL, and the NUL follows them; a buffer without NUL is shown whole |
| TimeText.StripLeadingZero | src/weather-app.c:190-191 | in 12-hour mode with a leading '0' every character of the buffer moves one place left and the last one stays, as `memmove(time_text, &time_text[1], 5)` does; otherwise the buffer is unchanged |
| TimeText.StrippedText | src/weather-app.c:188-194 | with a NUL-terminated buffer the 12-hour strip removes exactly the first character of the text; in 24-hour mode, or without a leading '0', the text is unchanged |
| TimeText.Formatted | src/weather-app.c:181-188 | the buffer after strftime ends in NUL and has the buffer's size |
| TimeText.TwelveHourText | src/weather-app.c:185-194 | a 12-hour time reads without a leading zero: hours 1 to 9 as one digit, 10 to 12 as two |
| TimeText.TwentyFourHourText | src/weather-app.c:181-194 | a 24-hour time keeps its two-digit hour |

## Left out

- Window, layer and font creation and teardown, layout, colours and alignment (src/weather-app.c:94-166). These are platform UI calls. `window_load` is modelled only for its `set_icon('a')`.
- Two things in `window_unload`, not modelled: it unloads the font `icons`, which is never loaded (line 165), and it never destroys `icon_bitmap`. The live-bitmap count therefore stays at 1 after the window is unloaded.
- AppMessage and AppSync internals: `app_message_open`, the sizing and `malloc` of the sync buffer, `app_sync_init`/`app_sync_deinit`, and the outbound STATUS=4 message (src/weather-app.c:211-234, 243). These are transport library calls. The model assumes AppSync delivers the initial tuplets through the changed handler, as Pebble documents.
- `strftime`, `clock_is_24h_style` and the date text (src/weather-app.c:177-188). These are library calls. The strip takes the formatted buffer and the 24-hour flag as inputs. `TimeText.Formatted` models the "%I:%M"/"%R" output only so the lemmas can state what is displayed.
- `APP_LOG`, the tick timer subscription, `app_event_loop` and `main`. These are logging and event-loop plumbing. The event loop is modelled as `Sync.Run` over a sequence of callbacks.
- Sync.Acceptable: an icon tuple is accepted only as a uint8 whose code is in 'a'..'v', and a text tuple only as a C string. C gives some other tuples a meaning that the model excludes. Line 82 reads the first byte of the value, so an icon sent as a wider integer or as a one-letter string still yields a code. A text key carrying an integer would have its bytes read as a string. An icon code below 'a' reads before `ICON_RES_IDS`, and one above 'v' reads past its end; neither has a defined result. The protocol fixes each key's value type and the icon range 'a'..'v', so any other tuple is a sender error.
- Text layers keep the pointer they are given and do not copy the string (lines 73, 76 and 79 pass a pointer into the AppSync buffer; the comment at lines 173-174 relies on the same behaviour). The model keeps a copy of each text. This assumes AppSync keeps each key's current string in place in its buffer when it merges later updates, so that a field no callback addressed still shows its earlier text (Sync.RunLastWrite).
- Bitmap handles are modelled by the resource they were created from plus a live count. The model does not capture pointer identity or the memory of the bitmap.
- Sync.SetIcon: assumes `gbitmap_create_with_resource` always succeeds. If it returned NULL, no bitmap would be live and the icon layer would show nothing, so "exactly one live" holds only when creation succeeds.
- WeatherApp.Watch.SetIcon: the same assumption, that bitmap creation succeeds.
- Sync.OnChanged: "exactly one live after key 3" assumes bitmap creation succeeds.
- Sync.OnError: "one bitmap live" assumes bitmap creation succeeds.
- WeatherApp.Watch.OnError: "one bitmap live" assumes bitmap creation succeeds.
- Sync.RunKeepsOneBitmap: holds only while every bitmap creation succeeds.
- Sync.InitialState: "one bitmap live" assumes bitmap creation at start-up succeeds.
- WeatherApp.Watch.Init: "one live bitmap" assumes bitmap creation at start-up succeeds.
