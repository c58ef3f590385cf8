/** The icon table of weather-app.c: the icon codes 'a'..'v' sent by the
    companion app and the bitmap resource each one selects. */
module Icons {

  /** The bitmap resources `RESOURCE_ID_IC_*`, in table order. */
  datatype IconRes =
    | IcRefresh | IcError | IcClearDay | IcClearNight | IcFog | IcWind
    | IcCold | IcPartlyCloudyDay | IcPartlyCloudyNight | IcFogAlt | IcCloudy
    | IcStorm | IcLightRain | IcRain | IcSnow | IcLightSnow | IcHeavySnow
    | IcHailSleet | IcMostlyCloudy | IcHeavyStorm | IcHot | IcNa

  /** `FIRST_ICON_VALUE`: the code of the first table entry. */
  const FirstIconValue: char := 'a'

  /** The placeholder icon shown until the first update arrives. */
  const RefreshIcon: char := 'a'

  /** The icon the error fallback shows. */
  const ErrorIcon: char := 'b'

  /** `ICON_RES_IDS`: entry i is the resource of code FirstIconValue + i. */
  const IconResIds: seq<IconRes> := [
    IcRefresh, IcError, IcClearDay, IcClearNight, IcFog, IcWind,
    IcCold, IcPartlyCloudyDay, IcPartlyCloudyNight, IcFogAlt, IcCloudy,
    IcStorm, IcLightRain, IcRain, IcSnow, IcLightSnow, IcHeavySnow,
    IcHailSleet, IcMostlyCloudy, IcHeavyStorm, IcHot, IcNa
  ]

  /** The codes the table covers. */
  predicate IsIconCode(c: char) {
    FirstIconValue <= c <= 'v'
  }

  /** `c - FIRST_ICON_VALUE`, the position set_icon reads: in bounds exactly
      for the codes the table covers. */
  function IconIndex(c: char): (i: int)
    ensures IsIconCode(c) <==> 0 <= i < |IconResIds|
  {
    c as int - FirstIconValue as int
  }

  /** The code each resource stands at in the table (the letters in the
      table's comments): an independent statement of the table's layout. */
  function CodeOf(r: IconRes): (c: char)
    ensures IsIconCode(c)
  {
    match r
    case IcRefresh => 'a'
    case IcError => 'b'
    case IcClearDay => 'c'
    case IcClearNight => 'd'
    case IcFog => 'e'
    case IcWind => 'f'
    case IcCold => 'g'
    case IcPartlyCloudyDay => 'h'
    case IcPartlyCloudyNight => 'i'
    case IcFogAlt => 'j'
    case IcCloudy => 'k'
    case IcStorm => 'l'
    case IcLightRain => 'm'
    case IcRain => 'n'
    case IcSnow => 'o'
    case IcLightSnow => 'p'
    case IcHeavySnow => 'q'
    case IcHailSleet => 'r'
    case IcMostlyCloudy => 's'
    case IcHeavyStorm => 't'
    case IcHot => 'u'
    case IcNa => 'v'
  }

  /** `ICON_RES_IDS[c - FIRST_ICON_VALUE]`: the resource set_icon loads for
      code c. It is the resource whose table position is c. */
  function ResourceOf(c: char): (r: IconRes)
    requires IsIconCode(c)
    ensures CodeOf(r) == c
  {
    TableLayout(IconIndex(c));
    IconResIds[IconIndex(c)]
  }

  /** Every table entry sits at the position its code names. */
  lemma TableLayout(i: int)
    requires 0 <= i < |IconResIds|
    ensures CodeOf(IconResIds[i]) as int == FirstIconValue as int + i
  {
  }

  /** Every resource of the table is reachable by exactly one code: the
      table and CodeOf are inverse. */
  lemma CodeRoundTrip(r: IconRes)
    ensures ResourceOf(CodeOf(r)) == r
  {
  }

  /** Distinct codes show distinct icons. */
  lemma ResourceOfInjective(c: char, d: char)
    requires IsIconCode(c) && IsIconCode(d)
    ensures ResourceOf(c) == ResourceOf(d) <==> c == d
  {
  }

  /** The two codes the application itself uses select the refresh and the
      error icon. */
  lemma NamedCodes()
    ensures ResourceOf(RefreshIcon) == IcRefresh
    ensures ResourceOf(ErrorIcon) == IcError
  {
  }
}
