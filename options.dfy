/** Optional values: `None` stands for "no value", for example a parse that
    would index a column the text does not have. */
module Options {

  datatype Option<+T> = None | Some(value: T)

}
