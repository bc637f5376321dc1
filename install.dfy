/** The install handler (background.js:1-79). */
module Install {
  import opened Rules
  import opened Registry
  import opened Setup
  import opened Extension

  /** `firstTimeSetup()`: when no redirect list is stored yet, store the
      example records and the switch OFF; in any case remove every dynamic
      rule. The example ids are the corrected odd ids 1, 3, 5, 7, 9 where the
      source writes 1 to 5, so the stored list is spaced. */
  method FirstTimeSetup(e: Extension, redirectsStored: bool)
    requires e.Valid()
    modifies e`records, e`onOff, e`rules
    ensures e.Valid() && e.rules == map[]
    ensures !redirectsStored ==> e.records == Seed() && Spaced(e.records) && e.onOff == "OFF"
    ensures redirectsStored ==> e.records == old(e.records) && e.onOff == old(e.onOff)
  {
    e.UpdateRulesBasedOnOnOff("OFF");
    assert e.Valid() && e.rules == map[];
    if !redirectsStored {
      StoreSeed(e);
    }
  }

  /** The storage write of background.js:13-54. */
  method StoreSeed(e: Extension)
    modifies e`records, e`onOff
    ensures e.records == Seed() && Spaced(e.records) && e.onOff == "OFF"
  {
    e.records := Seed();
    e.onOff := "OFF";
    SeedSpaced();
  }
}
