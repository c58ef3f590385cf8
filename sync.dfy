/** The display state of weather-app.c as a value, and what each callback
    does to it. This is the specification the class in WeatherApp is proved
    against; the properties the application relies on are proved here. */
module Sync {
  import opened Types
  import opened Icons

  /** The inbound keys. */
  const TemperatureKey: uint32 := 0
  const ConditionsKey: uint32 := 1
  const CityKey: uint32 := 2
  const IconKey: uint32 := 3

  /** The fixed texts the application shows. */
  const NotAvailable: string := "N/A"
  const PleaseWait: string := "Please wait..."
  const ErrorText: string := "Error"

  /** The value of an inbound tuple: a C string or a uint8. */
  datatype TupleValue = CString(text: string) | UInt8(byte: uint8)

  /** What is on screen and which bitmap is allocated: the three text
      layers' texts, `icon_bitmap` (None is NULL), the bitmap the icon layer
      shows, and the number of icon bitmaps created and not yet destroyed. */
  datatype Screen = Screen(
    temperature: string,
    conditions: string,
    city: string,
    iconBitmap: Option<IconRes>,
    shown: Option<IconRes>,
    liveBitmaps: nat)

  /** The bitmap bookkeeping agrees with the handle: one live bitmap when
      `icon_bitmap` is set, none when it is NULL, and the icon layer shows
      exactly that bitmap. */
  predicate Consistent(s: Screen) {
    && s.liveBitmaps == (if s.iconBitmap.Some? then 1 else 0)
    && s.shown == s.iconBitmap
  }

  /** The state when the window's layers have just been created: empty texts
      and no icon bitmap. */
  const Blank: Screen := Screen("", "", "", None, None, 0)

  /** The cast `(char) value->uint8`. */
  function ByteChar(b: uint8): char {
    (b as int) as char
  }

  /** set_icon: destroy the current bitmap if there is one, create the
      bitmap of code c and show it. */
  function SetIcon(s: Screen, c: char): (t: Screen)
    requires Consistent(s) && IsIconCode(c)
    ensures Consistent(t) && t.liveBitmaps == 1
    ensures t.shown == Some(ResourceOf(c))
    ensures t.temperature == s.temperature && t.conditions == s.conditions && t.city == s.city
  {
    var afterDestroy := if s.iconBitmap.Some? then s.liveBitmaps - 1 else s.liveBitmaps;
    var created := ResourceOf(c);
    s.(iconBitmap := Some(created), liveBitmaps := afterDestroy + 1, shown := Some(created))
  }

  /** What sync_changed_handler requires of a tuple: the value has the type
      of its key, and an icon code lies inside the table. Keys outside 0..3
      may carry anything. */
  predicate Acceptable(key: uint32, value: TupleValue) {
    && (key == TemperatureKey || key == ConditionsKey || key == CityKey ==> value.CString?)
    && (key == IconKey ==> value.UInt8? && IsIconCode(ByteChar(value.byte)))
  }

  /** sync_changed_handler: the switch on the key. */
  function OnChanged(s: Screen, key: uint32, value: TupleValue): (t: Screen)
    requires Consistent(s) && Acceptable(key, value)
    ensures Consistent(t)
    ensures key == IconKey ==> t.liveBitmaps == 1
    ensures key != IconKey ==> t.liveBitmaps == s.liveBitmaps
  {
    if key == TemperatureKey then s.(temperature := value.text)
    else if key == ConditionsKey then s.(conditions := value.text)
    else if key == CityKey then s.(city := value.text)
    else if key == IconKey then SetIcon(s, ByteChar(value.byte))
    else s
  }

  /** sync_error_handler: the error codes are logged and otherwise ignored. */
  function OnError(s: Screen, dictError: int, appMessageError: int): (t: Screen)
    requires Consistent(s)
    ensures Consistent(t) && t.liveBitmaps == 1
    ensures t.conditions == ErrorText && t.shown == Some(IcError)
    ensures t.temperature == s.temperature && t.city == s.city
  {
    NamedCodes();
    SetIcon(s.(conditions := ErrorText), ErrorIcon)
  }

  /** The error fallback is idempotent: a second error changes nothing,
      not even the number of live bitmaps. */
  lemma OnErrorIdempotent(s: Screen, d1: int, a1: int, d2: int, a2: int)
    requires Consistent(s)
    ensures OnError(OnError(s, d1, a1), d2, a2) == OnError(s, d1, a1)
  {
  }

  /** The fallback does not depend on the state it starts from, beyond the
      temperature and the city. */
  lemma OnErrorForgetsPast(s: Screen, u: Screen, d: int, a: int)
    requires Consistent(s) && Consistent(u)
    requires s.temperature == u.temperature && s.city == u.city
    ensures OnError(s, d, a) == OnError(u, d, a)
  {
  }

  // ---------------------------------------------------------------------
  // Displayed fields, one at a time

  /** The four displayed fields. */
  datatype Field = Temperature | Conditions | City | Icon

  /** The content of one displayed field. */
  datatype Shown = Text(text: string) | Image(res: Option<IconRes>)

  /** What field f currently shows. */
  function Get(s: Screen, f: Field): Shown {
    match f
    case Temperature => Text(s.temperature)
    case Conditions => Text(s.conditions)
    case City => Text(s.city)
    case Icon => Image(s.shown)
  }

  /** The field an inbound key addresses; None for keys the switch has no
      case for. */
  function FieldOfKey(key: uint32): (f: Option<Field>)
    ensures f.None? <==> key > IconKey
  {
    if key == TemperatureKey then Some(Temperature)
    else if key == ConditionsKey then Some(Conditions)
    else if key == CityKey then Some(City)
    else if key == IconKey then Some(Icon)
    else None
  }

  /** Keys TEMPERATURE=0, CONDITIONS=1 and CITY=2 set the temperature, the
      conditions and the city text respectively, and nothing else. */
  lemma KeyDispatch(s: Screen, text: string)
    requires Consistent(s)
    ensures FieldOfKey(TemperatureKey) == Some(Temperature)
    ensures FieldOfKey(ConditionsKey) == Some(Conditions)
    ensures FieldOfKey(CityKey) == Some(City)
    ensures FieldOfKey(IconKey) == Some(Icon)
    ensures OnChanged(s, TemperatureKey, CString(text)) == s.(temperature := text)
    ensures OnChanged(s, ConditionsKey, CString(text)) == s.(conditions := text)
    ensures OnChanged(s, CityKey, CString(text)) == s.(city := text)
  {
  }

  /** A callback the application receives. */
  datatype Event =
    | Changed(key: uint32, value: TupleValue)
    | Failed(dictError: int, appMessageError: int)

  predicate EventAcceptable(e: Event) {
    e.Changed? ==> Acceptable(e.key, e.value)
  }

  /** Reference definition of what a callback displays in field f: None when
      the callback leaves f alone. */
  function Writes(e: Event, f: Field): Option<Shown>
    requires EventAcceptable(e)
  {
    match e
    case Changed(key, value) =>
      if FieldOfKey(key) != Some(f) then None
      else if f == Icon then Some(Image(Some(ResourceOf(ByteChar(value.byte)))))
      else Some(Text(value.text))
    case Failed(_, _) =>
      if f == Conditions then Some(Text(ErrorText))
      else if f == Icon then Some(Image(Some(ResourceOf(ErrorIcon))))
      else None
  }

  /** Dispatch one callback. */
  function Step(s: Screen, e: Event): (t: Screen)
    requires Consistent(s) && EventAcceptable(e)
    ensures Consistent(t)
  {
    match e
    case Changed(key, value) => OnChanged(s, key, value)
    case Failed(d, a) => OnError(s, d, a)
  }

  /** Each callback changes exactly the fields it writes, to what it writes,
      and leaves every other field as it was. */
  lemma StepFrame(s: Screen, e: Event, f: Field)
    requires Consistent(s) && EventAcceptable(e)
    ensures Writes(e, f).Some? ==> Get(Step(s, e), f) == Writes(e, f).value
    ensures Writes(e, f).None? ==> Get(Step(s, e), f) == Get(s, f)
  {
    NamedCodes();
  }

  /** The key dispatch of sync_changed_handler, field by field: keys 0, 1, 2
      set their text to the tuple's string, key 3 shows the icon of the
      tuple's byte, and no other field changes; other keys change nothing. */
  lemma ChangedFrame(s: Screen, key: uint32, value: TupleValue)
    requires Consistent(s) && Acceptable(key, value)
    ensures key <= CityKey ==>
      Get(OnChanged(s, key, value), FieldOfKey(key).value) == Text(value.text)
    ensures key == IconKey ==>
      Get(OnChanged(s, key, value), Icon) == Image(Some(ResourceOf(ByteChar(value.byte))))
    ensures forall f: Field :: Some(f) != FieldOfKey(key) ==>
      Get(OnChanged(s, key, value), f) == Get(s, f)
    ensures key > IconKey ==> OnChanged(s, key, value) == s
  {
    forall f: Field ensures Some(f) != FieldOfKey(key) ==> Get(OnChanged(s, key, value), f) == Get(s, f) {
      StepFrame(s, Changed(key, value), f);
    }
  }

  // ---------------------------------------------------------------------
  // Sequences of callbacks

  predicate AllAcceptable(es: seq<Event>) {
    forall i :: 0 <= i < |es| ==> EventAcceptable(es[i])
  }

  /** The event loop: callbacks run to completion one after another. */
  function Run(s: Screen, es: seq<Event>): (t: Screen)
    requires Consistent(s) && AllAcceptable(es)
    ensures Consistent(t)
    decreases |es|
  {
    if es == [] then s
    else Run(Step(s, es[0]), es[1..])
  }

  /** Reference definition: a field shows what the last callback that wrote
      it wrote, or its starting content when none did. */
  function LastWrite(es: seq<Event>, f: Field, initial: Shown): Shown
    requires AllAcceptable(es)
    decreases |es|
  {
    if es == [] then initial
    else
      var last := es[|es| - 1];
      match Writes(last, f)
      case Some(v) => v
      case None => LastWrite(es[..|es| - 1], f, initial)
  }

  lemma {:induction false} RunSnoc(s: Screen, es: seq<Event>, e: Event)
    requires Consistent(s) && AllAcceptable(es) && EventAcceptable(e)
    ensures AllAcceptable(es + [e])
    ensures Run(s, es + [e]) == Step(Run(s, es), e)
    decreases |es|
  {
    assert AllAcceptable(es + [e]) by {
      forall i | 0 <= i < |es + [e]| ensures EventAcceptable((es + [e])[i]) {
        if i < |es| { assert (es + [e])[i] == es[i]; }
      }
    }
    if es == [] {
      assert [e][1..] == [];
    } else {
      assert (es + [e])[0] == es[0];
      assert (es + [e])[1..] == es[1..] + [e];
      RunSnoc(Step(s, es[0]), es[1..], e);
    }
  }

  /** Last writer wins: after any sequence of callbacks every field shows
      what the last callback addressing it delivered (the error fallback
      counting as a write of "Error" and the error icon), and fields no
      callback addressed keep their starting content. */
  lemma {:induction false} RunLastWrite(s: Screen, es: seq<Event>, f: Field)
    requires Consistent(s) && AllAcceptable(es)
    ensures Get(Run(s, es), f) == LastWrite(es, f, Get(s, f))
    decreases |es|
  {
    if es != [] {
      var init, last := es[..|es| - 1], es[|es| - 1];
      assert es == init + [last];
      assert AllAcceptable(init) by {
        forall i | 0 <= i < |init| ensures EventAcceptable(init[i]) {
          assert init[i] == es[i];
        }
      }
      RunSnoc(s, init, last);
      RunLastWrite(s, init, f);
      StepFrame(Run(s, init), last, f);
    }
  }

  /** One icon bitmap stays live: once a bitmap exists, any number of
      further callbacks leave exactly one live. */
  lemma {:induction false} RunKeepsOneBitmap(s: Screen, es: seq<Event>)
    requires Consistent(s) && AllAcceptable(es) && s.liveBitmaps == 1
    ensures Run(s, es).liveBitmaps == 1
    decreases |es|
  {
    if es != [] {
      var t := Step(s, es[0]);
      assert t.liveBitmaps == 1 by {
        match es[0]
        case Changed(key, value) =>
        case Failed(d, a) =>
      }
      RunKeepsOneBitmap(t, es[1..]);
    }
  }

  // ---------------------------------------------------------------------
  // Start-up

  /** The initial tuplets handed to app_sync_init. */
  const InitialTuplets: seq<Event> := [
    Changed(TemperatureKey, CString(NotAvailable)),
    Changed(ConditionsKey, CString(PleaseWait)),
    Changed(CityKey, CString(NotAvailable)),
    Changed(IconKey, UInt8(RefreshIcon as int as uint8))
  ]

  /** The screen after start-up: window_load's set_icon('a'), then AppSync
      delivering each initial tuplet through the changed handler. */
  function Initial(): (t: Screen)
    ensures Consistent(t)
  {
    assert AllAcceptable(InitialTuplets) by {
      forall i | 0 <= i < |InitialTuplets| ensures EventAcceptable(InitialTuplets[i]) {
      }
    }
    Run(SetIcon(Blank, RefreshIcon), InitialTuplets)
  }

  /** After start-up the temperature and city read "N/A", the conditions
      "Please wait...", the refresh icon is shown and exactly one bitmap is
      live. */
  lemma InitialState()
    ensures Initial().temperature == NotAvailable
    ensures Initial().conditions == PleaseWait
    ensures Initial().city == NotAvailable
    ensures Initial().shown == Some(IcRefresh)
    ensures Initial().liveBitmaps == 1
  {
    NamedCodes();
    var es := InitialTuplets;
    var s0 := SetIcon(Blank, RefreshIcon);
    var s1 := Step(s0, es[0]);
    var s2 := Step(s1, es[1]);
    var s3 := Step(s2, es[2]);
    var s4 := Step(s3, es[3]);
    assert es[1..][1..][1..][1..] == [];
    assert Run(s3, es[3..]) == s4;
    assert Run(s2, es[2..]) == Run(s3, es[3..]);
    assert Run(s1, es[1..]) == Run(s2, es[2..]);
    assert Run(s0, es) == Run(s1, es[1..]);
  }

  /** An example: an update of the temperature followed by a
      transport error. */
  lemma TemperatureThenError(temp: string, d: int, a: int)
    ensures Run(Initial(), [Changed(TemperatureKey, CString(temp)), Failed(d, a)])
      == Initial().(temperature := temp, conditions := ErrorText, shown := Some(IcError),
                    iconBitmap := Some(IcError))
  {
    var es := [Changed(TemperatureKey, CString(temp)), Failed(d, a)];
    assert AllAcceptable(es);
    InitialState();
    NamedCodes();
    var s1 := Step(Initial(), es[0]);
    assert es[1..][1..] == [];
    assert Run(Initial(), es) == Run(s1, es[1..]) == Step(s1, es[1]);
  }
}
