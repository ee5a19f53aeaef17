/** The visual variants of the `Badge` component the pages choose between. */
module Badges {

  datatype Variant = Default | Secondary | Outline | Destructive
}
