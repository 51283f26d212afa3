/** Shared data types of the price-history analysis. */
module PriceData {

  datatype Option<T> = None | Some(value: T)

  /** One raw field of a scraped record: the page delivers either a number or a text. */
  datatype Field = Num(x: real) | Text(s: string)

  /** A raw record `[timestamp, price, ...]`; it may be shorter or longer than two fields. */
  type Record = seq<Field>

  /** A record that survived normalisation: the timestamp as stored (seconds, or
      milliseconds when the page sent milliseconds) and the price. */
  datatype Sample = Sample(timestamp: real, price: real)

  /** The tuple `(timestamp, price, date)`; `date` is the instant in seconds derived
      from `timestamp`. */
  datatype Point = Point(timestamp: real, price: real, date: real)

  /** The statistics dictionary returned on success. */
  datatype Stats = Stats(
    startDate: real,
    endDate: real,
    totalPoints: nat,
    avgGapMinutes: real,
    minGapMinutes: real,
    maxGapMinutes: real,
    filteredData: seq<Point>)
}
