/** Directory payloads and working-set records. The program handles both as Python
    dictionaries from attribute names to values; here every value is a string. */
module Records {

  datatype Option<T> = None | Some(value: T)

  /** A dictionary subscript `d[key]` on a missing key (Python's KeyError) is the only
      error the pure transformations of the payloads can raise. */
  datatype Result<T> = Ok(value: T) | KeyError(key: string)

  type Record = map<string, string>

  /** `r.get(key, default)` */
  function Get(r: Record, key: string, default: string): string {
    if key in r then r[key] else default
  }

  /** The dictionary comprehension `{key: r[key] for key in keys if key in r}`. */
  function Project(r: Record, keys: seq<string>): Record {
    map k | k in keys && k in r :: r[k]
  }
}
