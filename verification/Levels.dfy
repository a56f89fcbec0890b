/** The two levels of a wiringPi pin. */
module Levels {
  const HIGH := true
  const LOW := false
}
