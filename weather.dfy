/** The weather widget's tables (`WeatherFetcher`) from a WMO weather
    interpretation code to a description and to an icon. */
module Weather {
  import opened Strings

  /** The sprites assigned in the inspector. */
  datatype WeatherIcon = ClearSky | PartlyCloudy | Overcast | Rain | Snow | Thunderstorm | UnknownIcon

  const UnknownDescription: string := "Unknown"

  /** The codes the description table lists. */
  const DescribedCodes: set<int> :=
    {0, 1, 2, 3, 45, 48, 51, 53, 55, 56, 57, 61, 63, 65, 66, 67, 71, 73, 75, 77,
     80, 81, 82, 85, 86, 95, 96, 99}

  /** The codes the icon table lists. */
  const IconCodes: set<int> :=
    {0, 1, 2, 3, 61, 63, 65, 80, 81, 82, 71, 73, 75, 85, 86, 95, 96, 99}

  /** `GetWeatherDescription`: total; any unlisted code is "Unknown". */
  function Description(code: int): (d: string)
    ensures d != []
  {
    match code
    case 0 => "Clear sky"
    case 1 => "Mostly clear"
    case 2 => "Partly cloudy"
    case 3 => "Overcast"
    case 45 => "Fog"
    case 48 => "Fog"
    case 51 => "Drizzle"
    case 53 => "Drizzle"
    case 55 => "Drizzle"
    case 56 => "Freezing drizzle"
    case 57 => "Freezing drizzle"
    case 61 => "Rain"
    case 63 => "Rain"
    case 65 => "Rain"
    case 66 => "Freezing rain"
    case 67 => "Freezing rain"
    case 71 => "Snow fall"
    case 73 => "Snow fall"
    case 75 => "Snow fall"
    case 77 => "Snow grains"
    case 80 => "Rain showers"
    case 81 => "Rain showers"
    case 82 => "Rain showers"
    case 85 => "Snow showers"
    case 86 => "Snow showers"
    case 95 => "Thunderstorm"
    case 96 => "Thunderstorm with hail"
    case 99 => "Thunderstorm with hail"
    case _ => UnknownDescription
  }

  /** `GetWeatherIcon`: total; any unlisted code gets the unknown icon. */
  function Icon(code: int): (icon: WeatherIcon)
    ensures icon == UnknownIcon <==> code !in IconCodes
  {
    match code
    case 0 => ClearSky
    case 1 => ClearSky
    case 2 => PartlyCloudy
    case 3 => Overcast
    case 61 => Rain
    case 63 => Rain
    case 65 => Rain
    case 80 => Rain
    case 81 => Rain
    case 82 => Rain
    case 71 => Snow
    case 73 => Snow
    case 75 => Snow
    case 85 => Snow
    case 86 => Snow
    case 95 => Thunderstorm
    case 96 => Thunderstorm
    case 99 => Thunderstorm
    case _ => UnknownIcon
  }

  /** Exactly the unlisted codes are described as "Unknown". */
  lemma UnknownExactlyWhenUnlisted(code: int)
    ensures Description(code) == UnknownDescription <==> code !in DescribedCodes
  {
    if code in DescribedCodes {
      assert Description(code)[0] != UnknownDescription[0];
    }
  }

  /** Codes of one group share a description. */
  lemma DescriptionGroups()
    ensures Description(45) == Description(48) == "Fog"
    ensures Description(51) == Description(53) == Description(55) == "Drizzle"
    ensures Description(61) == Description(63) == Description(65) == "Rain"
    ensures Description(96) == Description(99) == "Thunderstorm with hail"
  {
  }

  /** Which codes get which icon. */
  lemma IconGroups(code: int)
    ensures Icon(code) == ClearSky <==> code in {0, 1}
    ensures Icon(code) == Rain <==> code in {61, 63, 65, 80, 81, 82}
    ensures Icon(code) == Snow <==> code in {71, 73, 75, 85, 86}
    ensures Icon(code) == Thunderstorm <==> code in {95, 96, 99}
  {
  }

  /** A code with a real icon always has a real description. */
  lemma IconImpliesDescription(code: int)
    requires Icon(code) != UnknownIcon
    ensures Description(code) != UnknownDescription
  {
    UnknownExactlyWhenUnlisted(code);
  }

  /** The converse fails: fog, drizzle and snow grains are described but
      shown with the unknown icon. */
  lemma DescribedWithoutIcon()
    ensures Description(45) != UnknownDescription && Icon(45) == UnknownIcon
    ensures Description(51) != UnknownDescription && Icon(51) == UnknownIcon
    ensures Description(77) != UnknownDescription && Icon(77) == UnknownIcon
  {
  }

  /** The icon agrees with the description: rain icons go with a rain
      description, snow icons with snow, storm icons with a thunderstorm. */
  lemma IconMatchesDescription(code: int)
    ensures Icon(code) == Rain ==> StartsWithIgnoreCase(Description(code), "Rain")
    ensures Icon(code) == Snow ==> StartsWithIgnoreCase(Description(code), "Snow")
    ensures Icon(code) == Thunderstorm ==> StartsWithIgnoreCase(Description(code), "Thunderstorm")
  {
    IconGroups(code);
    var d := Description(code);
    if Icon(code) == Rain {
      assert d == "Rain" || d == "Rain showers";
      PrefixStartsWith(d, "Rain");
    } else if Icon(code) == Snow {
      assert d == "Snow fall" || d == "Snow showers";
      PrefixStartsWith(d, "Snow");
    } else if Icon(code) == Thunderstorm {
      assert d == "Thunderstorm" || d == "Thunderstorm with hail";
      PrefixStartsWith(d, "Thunderstorm");
    }
  }
}
