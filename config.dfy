/** Process-wide configuration and the tagged results every handler returns. */
module Config {

  /** Points credited for one bottle. */
  const POINTS_PER_BOTTLE: int := 10

  /** The secret the admin reset compares against. */
  const ADMIN_KEY: string := "RESET123"

  /** How many rows the leaderboard and the history return at most. */
  const LEADERBOARD_LIMIT: nat := 20
  const HISTORY_LIMIT: nat := 30

  /** The detail strings of the two invalid-request answers. */
  const MISSING_SCHOOL_ID: string := "Missing school_id"
  const BAD_BOTTLE_COUNT: string := "bottle_count must be integer > 0"

  /** The failure kinds a handler answers with instead of a success body. */
  datatype Error =
    | InvalidRequest(detail: string)
    | Unauthorized
    | NotFound

  datatype Result<T> = Ok(value: T) | Err(error: Error)
}
