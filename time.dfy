/** Instants. The application holds `Date` objects and the database holds
    ISO-8601 strings; both denote a number of milliseconds since the epoch,
    which is what the model keeps. */
module Time {
  type Timestamp = int
}
