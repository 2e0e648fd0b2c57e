/** The almanac of the puzzle's example, worked through the model of day 5. */
module Day05Examples {
  import opened Wrappers
  import opened Day05

  const SOIL_TO_FERTILIZER := [Entry(0, 15, 37), Entry(37, 52, 2), Entry(39, 0, 15)]
  const FERTILIZER_TO_WATER := [Entry(49, 53, 8), Entry(0, 11, 42), Entry(42, 0, 7), Entry(57, 7, 4)]
  const WATER_TO_LIGHT := [Entry(88, 18, 7), Entry(18, 25, 70)]
  const LIGHT_TO_TEMPERATURE := [Entry(45, 77, 23), Entry(81, 45, 19), Entry(68, 64, 13)]
  const TEMPERATURE_TO_HUMIDITY := [Entry(0, 69, 1), Entry(1, 0, 69)]
  const HUMIDITY_TO_LOCATION := [Entry(60, 56, 37), Entry(56, 93, 4)]

  const EXAMPLE_MAPS: seq<seq<Entry>> := [
    SEED_TO_SOIL, SOIL_TO_FERTILIZER, FERTILIZER_TO_WATER, WATER_TO_LIGHT,
    LIGHT_TO_TEMPERATURE, TEMPERATURE_TO_HUMIDITY, HUMIDITY_TO_LOCATION
  ]

  const EXAMPLE := Almanac([79, 14, 55, 13], EXAMPLE_MAPS)

  /** One more map at the end of a chain converts the value the shorter chain reached. */
  lemma LocationStep(maps: seq<seq<Entry>>, k: nat, seed: nat)
    requires k < |maps|
    ensures Location(maps[..k + 1], seed) == MapConvert(maps[k], Location(maps[..k], seed))
  {
    assert maps[..k + 1][..k] == maps[..k];
  }

  /** A chain of seven maps taking `seed` through the values `v1`, ..., `v7` in turn. */
  lemma SevenSteps(m0: seq<Entry>, m1: seq<Entry>, m2: seq<Entry>, m3: seq<Entry>, m4: seq<Entry>, m5: seq<Entry>,
                   m6: seq<Entry>, seed: nat, v1: nat, v2: nat, v3: nat, v4: nat, v5: nat, v6: nat, v7: nat)
    requires MapConvert(m0, seed) == v1 && MapConvert(m1, v1) == v2 && MapConvert(m2, v2) == v3
    requires MapConvert(m3, v3) == v4 && MapConvert(m4, v4) == v5 && MapConvert(m5, v5) == v6
    requires MapConvert(m6, v6) == v7
    ensures Location([m0, m1, m2, m3, m4, m5, m6], seed) == v7
  {
    var maps := [m0, m1, m2, m3, m4, m5, m6];
    assert maps[..0] == [];
    LocationStep(maps, 0, seed);
    LocationStep(maps, 1, seed);
    LocationStep(maps, 2, seed);
    LocationStep(maps, 3, seed);
    LocationStep(maps, 4, seed);
    LocationStep(maps, 5, seed);
    LocationStep(maps, 6, seed);
    assert maps[..7] == maps;
  }

  // Each map applied to the four values the example's seeds have reached at that stage.

  lemma SoilToFertilizerStage()
    ensures MapConvert(SOIL_TO_FERTILIZER, 81) == 81 && MapConvert(SOIL_TO_FERTILIZER, 14) == 53
    ensures MapConvert(SOIL_TO_FERTILIZER, 57) == 57 && MapConvert(SOIL_TO_FERTILIZER, 13) == 52
  {
  }

  lemma FertilizerToWaterStage()
    ensures MapConvert(FERTILIZER_TO_WATER, 81) == 81 && MapConvert(FERTILIZER_TO_WATER, 53) == 49
    ensures MapConvert(FERTILIZER_TO_WATER, 57) == 53 && MapConvert(FERTILIZER_TO_WATER, 52) == 41
  {
  }

  lemma WaterToLightStage()
    ensures MapConvert(WATER_TO_LIGHT, 81) == 74 && MapConvert(WATER_TO_LIGHT, 49) == 42
    ensures MapConvert(WATER_TO_LIGHT, 53) == 46 && MapConvert(WATER_TO_LIGHT, 41) == 34
  {
  }

  lemma LightToTemperatureStage()
    ensures MapConvert(LIGHT_TO_TEMPERATURE, 74) == 78 && MapConvert(LIGHT_TO_TEMPERATURE, 42) == 42
    ensures MapConvert(LIGHT_TO_TEMPERATURE, 46) == 82 && MapConvert(LIGHT_TO_TEMPERATURE, 34) == 34
  {
  }

  lemma TemperatureToHumidityStage()
    ensures MapConvert(TEMPERATURE_TO_HUMIDITY, 78) == 78 && MapConvert(TEMPERATURE_TO_HUMIDITY, 42) == 43
    ensures MapConvert(TEMPERATURE_TO_HUMIDITY, 82) == 82 && MapConvert(TEMPERATURE_TO_HUMIDITY, 34) == 35
  {
  }

  lemma HumidityToLocationStage()
    ensures MapConvert(HUMIDITY_TO_LOCATION, 78) == 82 && MapConvert(HUMIDITY_TO_LOCATION, 43) == 43
    ensures MapConvert(HUMIDITY_TO_LOCATION, 82) == 86 && MapConvert(HUMIDITY_TO_LOCATION, 35) == 35
  {
  }

  /** Seed 79 passes through 81, 81, 81, 74, 78, 78 to location 82. */
  lemma SeedSeventyNine()
    ensures Location(EXAMPLE_MAPS, 79) == 82
  {
    assert MapConvert(SEED_TO_SOIL, 79) == 81 by { SeedToSoilExample(); }
    assert MapConvert(SOIL_TO_FERTILIZER, 81) == 81 by { SoilToFertilizerStage(); }
    assert MapConvert(FERTILIZER_TO_WATER, 81) == 81 by { FertilizerToWaterStage(); }
    assert MapConvert(WATER_TO_LIGHT, 81) == 74 by { WaterToLightStage(); }
    assert MapConvert(LIGHT_TO_TEMPERATURE, 74) == 78 by { LightToTemperatureStage(); }
    assert MapConvert(TEMPERATURE_TO_HUMIDITY, 78) == 78 by { TemperatureToHumidityStage(); }
    assert MapConvert(HUMIDITY_TO_LOCATION, 78) == 82 by { HumidityToLocationStage(); }
    SevenSteps(SEED_TO_SOIL, SOIL_TO_FERTILIZER, FERTILIZER_TO_WATER, WATER_TO_LIGHT, LIGHT_TO_TEMPERATURE,
               TEMPERATURE_TO_HUMIDITY, HUMIDITY_TO_LOCATION, 79, 81, 81, 81, 74, 78, 78, 82);
  }

  lemma ThreeSteps(m0: seq<Entry>, m1: seq<Entry>, m2: seq<Entry>, seed: nat, v1: nat, v2: nat, v3: nat)
    requires MapConvert(m0, seed) == v1 && MapConvert(m1, v1) == v2 && MapConvert(m2, v2) == v3
    ensures Location([m0, m1, m2], seed) == v3
  {
    var maps := [m0, m1, m2];
    assert maps[..0] == [];
    LocationStep(maps, 0, seed);
    LocationStep(maps, 1, seed);
    LocationStep(maps, 2, seed);
    assert maps[..3] == maps;
  }

  lemma FirstOfFour(a: seq<Entry>, b: seq<Entry>, c: seq<Entry>, d: seq<Entry>, seed: nat)
    ensures Location([a, b, c, d], seed) == Location([b, c, d], MapConvert(a, seed))
  {
    LocationCompose([a], [b, c, d], seed);
    assert [a] + [b, c, d] == [a, b, c, d];
    assert [a][..0] == [];
  }

  lemma FourThenThree(a: seq<Entry>, b: seq<Entry>, c: seq<Entry>, d: seq<Entry>, e: seq<Entry>, f: seq<Entry>,
                      g: seq<Entry>, seed: nat)
    ensures Location([a, b, c, d, e, f, g], seed) == Location([e, f, g], Location([a, b, c, d], seed))
  {
    LocationCompose([a, b, c, d], [e, f, g], seed);
    assert [a, b, c, d] + [e, f, g] == [a, b, c, d, e, f, g];
  }

  /** From soil 14 through fertilizer 53 and water 49 to light 42. */
  lemma SoilFourteen(soil: nat)
    requires soil == 14
    ensures Location([SOIL_TO_FERTILIZER, FERTILIZER_TO_WATER, WATER_TO_LIGHT], soil) == 42
  {
    SoilToFertilizerStage();
    FertilizerToWaterStage();
    WaterToLightStage();
    ThreeSteps(SOIL_TO_FERTILIZER, FERTILIZER_TO_WATER, WATER_TO_LIGHT, soil, 53, 49, 42);
  }

  /** Seed 14 passes through 14, 53, 49, 42, 42, 43 to location 43. */
  lemma SeedFourteen()
    ensures Location(EXAMPLE_MAPS, 14) == 43
  {
    SeedToSoilExample();
    SoilFourteen(14);
    FirstOfFour(SEED_TO_SOIL, SOIL_TO_FERTILIZER, FERTILIZER_TO_WATER, WATER_TO_LIGHT, 14);
    assert Location([LIGHT_TO_TEMPERATURE, TEMPERATURE_TO_HUMIDITY, HUMIDITY_TO_LOCATION], 42) == 43 by {
      LightToTemperatureStage();
      TemperatureToHumidityStage();
      HumidityToLocationStage();
      ThreeSteps(LIGHT_TO_TEMPERATURE, TEMPERATURE_TO_HUMIDITY, HUMIDITY_TO_LOCATION, 42, 42, 43, 43);
    }
    FourThenThree(SEED_TO_SOIL, SOIL_TO_FERTILIZER, FERTILIZER_TO_WATER, WATER_TO_LIGHT, LIGHT_TO_TEMPERATURE,
                  TEMPERATURE_TO_HUMIDITY, HUMIDITY_TO_LOCATION, 14);
  }

  /** Seed 55 passes through 57, 57, 53, 46, 82, 82 to location 86. */
  lemma SeedFiftyFive()
    ensures Location(EXAMPLE_MAPS, 55) == 86
  {
    assert MapConvert(SEED_TO_SOIL, 55) == 57 by { SeedToSoilExample(); }
    assert MapConvert(SOIL_TO_FERTILIZER, 57) == 57 by { SoilToFertilizerStage(); }
    assert MapConvert(FERTILIZER_TO_WATER, 57) == 53 by { FertilizerToWaterStage(); }
    assert MapConvert(WATER_TO_LIGHT, 53) == 46 by { WaterToLightStage(); }
    assert MapConvert(LIGHT_TO_TEMPERATURE, 46) == 82 by { LightToTemperatureStage(); }
    assert MapConvert(TEMPERATURE_TO_HUMIDITY, 82) == 82 by { TemperatureToHumidityStage(); }
    assert MapConvert(HUMIDITY_TO_LOCATION, 82) == 86 by { HumidityToLocationStage(); }
    SevenSteps(SEED_TO_SOIL, SOIL_TO_FERTILIZER, FERTILIZER_TO_WATER, WATER_TO_LIGHT, LIGHT_TO_TEMPERATURE,
               TEMPERATURE_TO_HUMIDITY, HUMIDITY_TO_LOCATION, 55, 57, 57, 53, 46, 82, 82, 86);
  }

  /** Seed 13 passes through 13, 52, 41, 34, 34, 35 to location 35. */
  lemma SeedThirteen()
    ensures Location(EXAMPLE_MAPS, 13) == 35
  {
    assert MapConvert(SEED_TO_SOIL, 13) == 13 by { SeedToSoilExample(); }
    assert MapConvert(SOIL_TO_FERTILIZER, 13) == 52 by { SoilToFertilizerStage(); }
    assert MapConvert(FERTILIZER_TO_WATER, 52) == 41 by { FertilizerToWaterStage(); }
    assert MapConvert(WATER_TO_LIGHT, 41) == 34 by { WaterToLightStage(); }
    assert MapConvert(LIGHT_TO_TEMPERATURE, 34) == 34 by { LightToTemperatureStage(); }
    assert MapConvert(TEMPERATURE_TO_HUMIDITY, 34) == 35 by { TemperatureToHumidityStage(); }
    assert MapConvert(HUMIDITY_TO_LOCATION, 35) == 35 by { HumidityToLocationStage(); }
    SevenSteps(SEED_TO_SOIL, SOIL_TO_FERTILIZER, FERTILIZER_TO_WATER, WATER_TO_LIGHT, LIGHT_TO_TEMPERATURE,
               TEMPERATURE_TO_HUMIDITY, HUMIDITY_TO_LOCATION, 13, 13, 52, 41, 34, 34, 35, 35);
  }

  /** The lowest of the example's four locations is 35. */
  lemma LowestLocationExample()
    ensures LowestLocation(EXAMPLE) == Some(35)
  {
    SeedSeventyNine();
    SeedFourteen();
    SeedFiftyFive();
    SeedThirteen();
    var r := LowestLocation(EXAMPLE);
    assert r.Some? && r.value <= Location(EXAMPLE_MAPS, EXAMPLE.seeds[3]);
    var k :| 0 <= k < 4 && r.value == Location(EXAMPLE_MAPS, EXAMPLE.seeds[k]);
  }

  /** The example's seeds read in pairs. */
  lemma SeedRangesExample()
    ensures SeedRanges([79, 14, 55, 13]) == [ValueRange(79, 14), ValueRange(55, 13)]
  {
  }

  /** An ordered sequence whose only member is `x` is `[x]`. */
  lemma OnlyMember(r: seq<nat>, x: nat)
    requires Increasing(r)
    requires forall y :: y in r <==> y == x
    ensures r == [x]
  {
    assert x in r;
    assert r[0] in r && r[|r| - 1] in r;
  }

  /** Seeds 50 to 54 lie inside the second entry of the seed-to-soil map, so the range is
      cut only at its end and moves as one piece to soil 52 to 56. */
  lemma ConvertRangeExample()
    ensures RangePieces(SEED_TO_SOIL, ValueRange(50, 5)) == [ValueRange(52, 5)]
  {
    var range := ValueRange(50, 5);
    assert Cuts(SEED_TO_SOIL, range, 2) == {};
    var cuts := CutPoints(SEED_TO_SOIL, range);
    assert forall y :: y in cuts <==> y == 55 by {
      assert cuts == Ascending(CutSet(SEED_TO_SOIL, range), 56);
    }
    OnlyMember(cuts, 55);
  }
}
