/** One character as the HTTP API delivers it: a behaviour-free record. */
module HogwartsData {

  /** The JSON object of one character, reduced to the three fields the app keeps. */
  datatype HogwartsDataItem = HogwartsDataItem(actor: string, image: string, name: string)

}
