/** The `User` record bound from each JSON object of the /users API. */
module Users {

  /** A Java `long`. */
  type Long = x: int | -0x8000_0000_0000_0000 <= x < 0x8000_0000_0000_0000

  /** One user as parsed; unknown JSON fields are dropped by the binding and never reach it. */
  datatype User = User(id: Long, email: string, status: string)
}
