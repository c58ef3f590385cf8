/** The globals of weather-app.c that the callbacks update in place, and the
    callbacks themselves. Each method is proved to do to the object what the
    matching function of Sync does to a Screen value. */
module WeatherApp {
  import opened Types
  import opened Icons
  import Sync

  class Watch {
    /** The texts of text_temp_layer, text_cond_layer and text_city_layer. */
    var temperature: string
    var conditions: string
    var city: string
    /** `icon_bitmap`: the resource of the current bitmap; None is NULL. */
    var iconBitmap: Option<IconRes>
    /** The bitmap icon_layer shows. */
    var shown: Option<IconRes>
    /** Icon bitmaps created by gbitmap_create_with_resource and not yet
        passed to gbitmap_destroy. */
    var liveBitmaps: nat
    /** The largest number of icon bitmaps that have been live at once. */
    ghost var peakLive: nat

    /** The object's state as a Sync.Screen value. */
    function View(): Sync.Screen
      reads this
    {
      Sync.Screen(temperature, conditions, city, iconBitmap, shown, liveBitmaps)
    }

    ghost predicate Valid()
      reads this
    {
      && Sync.Consistent(View())
      && liveBitmaps <= peakLive <= 1
    }

    /** init() and window_load(): the layers start empty, window_load calls
        set_icon('a'), then AppSync hands each initial tuplet to the changed
        handler. */
    constructor Init()
      ensures Valid() && View() == Sync.Initial()
      ensures temperature == Sync.NotAvailable && conditions == Sync.PleaseWait
      ensures city == Sync.NotAvailable && shown == Some(IcRefresh) && liveBitmaps == 1
    {
      temperature, conditions, city := "", "", "";
      iconBitmap, shown, liveBitmaps := None, None, 0;
      peakLive := 0;
      new;
      SetIcon(RefreshIcon);
      ghost var s0 := View();
      var es := Sync.InitialTuplets;
      OnChanged(es[0].key, es[0].value);
      ghost var s1 := View();
      OnChanged(es[1].key, es[1].value);
      ghost var s2 := View();
      OnChanged(es[2].key, es[2].value);
      ghost var s3 := View();
      OnChanged(es[3].key, es[3].value);
      assert es[1..][1..][1..][1..] == [];
      assert Sync.Run(s3, es[3..]) == View();
      assert Sync.Run(s2, es[2..]) == Sync.Run(s3, es[3..]);
      assert Sync.Run(s1, es[1..]) == Sync.Run(s2, es[2..]);
      assert Sync.Run(s0, es) == Sync.Run(s1, es[1..]);
      Sync.InitialState();
    }

    /** set_icon(c): destroy the current bitmap if there is one, create the
        bitmap of table entry c - 'a' and hand it to the icon layer. */
    method SetIcon(c: char)
      requires Valid() && IsIconCode(c)
      modifies this
      ensures Valid() && View() == Sync.SetIcon(old(View()), c)
      ensures liveBitmaps == 1 && shown == iconBitmap == Some(ResourceOf(c))
      ensures peakLive == 1
    {
      if iconBitmap.Some? {
        liveBitmaps := liveBitmaps - 1;
      }
      var index := IconIndex(c);
      var created := IconResIds[index];
      iconBitmap := Some(created);
      liveBitmaps := liveBitmaps + 1;
      peakLive := if liveBitmaps > peakLive then liveBitmaps else peakLive;
      shown := iconBitmap;
    }

    /** sync_changed_handler(key, new_tuple): a switch with no default case. */
    method OnChanged(key: uint32, value: Sync.TupleValue)
      requires Valid() && Sync.Acceptable(key, value)
      modifies this
      ensures Valid() && View() == Sync.OnChanged(old(View()), key, value)
    {
      if key == Sync.TemperatureKey {
        temperature := value.text;
      } else if key == Sync.ConditionsKey {
        conditions := value.text;
      } else if key == Sync.CityKey {
        city := value.text;
      } else if key == Sync.IconKey {
        SetIcon(Sync.ByteChar(value.byte));
      }
    }

    /** sync_error_handler: show "Error" and the error icon; the two error
        codes are only logged. */
    method OnError(dictError: int, appMessageError: int)
      requires Valid()
      modifies this
      ensures Valid() && View() == Sync.OnError(old(View()), dictError, appMessageError)
      ensures conditions == Sync.ErrorText && shown == Some(IcError) && liveBitmaps == 1
      ensures temperature == old(temperature) && city == old(city)
    {
      conditions := Sync.ErrorText;
      SetIcon(ErrorIcon);
      NamedCodes();
    }
  }
}
