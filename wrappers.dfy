/** The optional value the scraper passes around as Python's `None`. */
module Wrappers {

  datatype Option<+T> = None | Some(value: T)

}
