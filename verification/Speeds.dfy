/** The protocol speed numbers of a port, as they are when the controller defines no others. */
module Speeds {
  const FULL_SPEED := 1
  const LOW_SPEED := 2
  const HIGH_SPEED := 3
  const SUPER_SPEED := 4
  const SUPER_SPEED_PLUS := 5
}
