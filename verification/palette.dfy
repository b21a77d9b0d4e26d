/** The Material UI chip colours the pages choose between. */
module Palette {

  datatype ChipColor = Default | Success | Info | Warning | Error
}
