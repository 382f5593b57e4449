/** The columns the feature engineering names. */
module Schema {
  /** A column the transformation reads or writes, by index; the comment
      beside each constant gives its label in the frame. Any other column is
      carried along untouched and is labelled by its name instead (see
      `Tables.ColName`). */
  newtype Field = x: int | 0 <= x < 32

  // Raw numeric columns.
  const RoomCnt: Field := 0  // "roomcnt"
  const BedroomCnt: Field := 1  // "bedroomcnt"
  const BathroomCnt: Field := 2  // "bathroomcnt"
  const GarageSqft: Field := 3  // "garagetotalsqft"
  const GarageCarCnt: Field := 4  // "garagecarcnt"
  const FinishedSqft: Field := 5  // "calculatedfinishedsquarefeet"
  const YearBuilt: Field := 6  // "yearbuilt"
  const UnitCnt: Field := 7  // "unitcnt"

  // The regression target.
  const TaxValue: Field := 8  // "taxvaluedollarcnt"

  // High-cardinality zoning text, dropped when present.
  const ZoningDesc: Field := 9  // "propertyzoningdesc"

  // Engineered columns.
  const RoomCntFixed: Field := 10  // "roomcnt_fixed"
  const PricePerSqft: Field := 11  // "price_per_sqft"
  const AgeOfHome: Field := 12  // "age_of_home"
  const BathPerBed: Field := 13  // "bath_per_bed"
  const RoomsPerSqft: Field := 14  // "rooms_per_sqft"
  const GarageSqftRatio: Field := 15  // "garage_sqft_ratio"
  const MultiUnit: Field := 16  // "multi_unit"
  const HasGarage: Field := 17  // "has_garage"

  // Raw categorical columns bucketed to their top-K values.
  const RegionCity: Field := 18  // "regionidcity"
  const RegionZip: Field := 19  // "regionidzip"
  const RegionNeighborhood: Field := 20  // "regionidneighborhood"
  const LandUseCode: Field := 21  // "propertycountylandusecode"
  const LandUseType: Field := 22  // "propertylandusetypeid"

  // The bucketed columns, one-hot encoded and removed again.
  const CityTop: Field := 23  // "regionidcity_top"
  const ZipTop: Field := 24  // "regionidzip_top"
  const NeighborhoodTop: Field := 25  // "regionidneighborhood_top"
  const LandUseTop: Field := 26  // "propertycountylanduse_top"
  const LandUseTypeTop: Field := 27  // "propertylandusetype_top"

  // Low-cardinality categorical columns one-hot encoded directly.
  const AirConditioning: Field := 28  // "airconditioningtypeid"
  const Heating: Field := 29  // "heatingorsystemtypeid"
  const Fips: Field := 30  // "fips"
  const RegionCounty: Field := 31  // "regionidcounty"

  /** Low-cardinality columns one-hot encoded directly, in source order. */
  const LowCardinality: seq<Field> := [AirConditioning, Heating, Fips, RegionCounty]
}
