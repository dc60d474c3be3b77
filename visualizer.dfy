/** The colour the visualizer paints the furnace interior with: four bands of
    the temperature line. */
module Visualizer {

  type Rgb = (int, int, int)

  const White: Rgb := (255, 255, 255)
  const Red: Rgb := (255, 0, 0)
  const Yellow: Rgb := (255, 255, 0)
  const Blue: Rgb := (0, 0, 255)

  /** White below 150, red on [150, 180), yellow on [180, 220], blue above 220. */
  function TemperatureColor(temperature: int): (colour: Rgb)
    ensures colour == White <==> temperature < 150
    ensures colour == Red <==> 150 <= temperature < 180
    ensures colour == Yellow <==> 180 <= temperature <= 220
    ensures colour == Blue <==> temperature > 220
  {
    if temperature < 150 then White
    else if temperature < 180 then Red
    else if temperature <= 220 then Yellow
    else Blue
  }

  /** The four bands cover every temperature and no temperature lies in two:
      each temperature gets exactly one of the four colours. */
  lemma BandsPartition(temperature: int)
    ensures TemperatureColor(temperature) in {White, Red, Yellow, Blue}
    ensures White != Red && White != Yellow && White != Blue
    ensures Red != Yellow && Red != Blue && Yellow != Blue
  {
  }
}
