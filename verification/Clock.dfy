/** Virtual time. */
module Clock {

  type Time = real

  function Later(a: Time, b: Time): Time {
    if a >= b then a else b
  }
}
