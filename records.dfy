/** The normalised leaflet record every chain writes, and the chain tags it carries. */
module Records {

  /** The `chain` field of a leaflet record; `Tag` is the string the record stores. */
  datatype Chain = Spar | Interspar | Dm | Lidl | Eurospin {
    function Tag(): string
    {
      match this
      case Spar => "SPAR"
      case Interspar => "Interspar"
      case Dm => "DM"
      case Lidl => "Lidl"
      case Eurospin => "Eurospin"
    }
  }

  /** A validity window: two time values in milliseconds since the epoch. */
  datatype Window = Window(validFrom: int, validTo: int)

  /** One document of the `leaflets` collection, as the `$set` of every chain writes it. */
  datatype Leaflet = Leaflet(url: string, validFrom: int, validTo: int, chain: Chain, scrapedAt: int)
}
