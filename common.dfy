/** Values shared by the page behaviours: an optional value stands for a DOM
    attribute or element that may be absent (`null` in the page script). */
module Common {

  datatype Option<T> = None | Some(value: T)
}
