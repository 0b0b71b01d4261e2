/** `DotDict`: a dict whose keys can also be read as attributes. A missing attribute reads as
    `None`, and a dict value is handed out wrapped in a new `DotDict`. */
module Dicts {
  import opened Wrappers
  import opened Values

  /** What `get` and attribute access hand back: a plain value, or a dict value wrapped in a new
      `DotDict` object. */
  datatype Item = Plain(v: Value) | Wrapped(d: DotDict)

  class DotDict {
    var entries: map<string, Value>

    /** `DotDict(d)` */
    constructor (d: map<string, Value>)
      ensures entries == d
    {
      entries := d;
    }

    /** `d.get(k, default)`: `default` when `k` is absent; a dict that is found (or given as the
        default) comes back as a fresh `DotDict` over the same contents, anything else as it is. */
    method Get(k: string, default: Value) returns (r: Item)
      ensures k in entries && entries[k].Dict? ==>
                r.Wrapped? && fresh(r.d) && r.d.entries == entries[k].entries
      ensures k in entries && !entries[k].Dict? ==> r == Plain(entries[k])
      ensures k !in entries && default.Dict? ==>
                r.Wrapped? && fresh(r.d) && r.d.entries == default.entries
      ensures k !in entries && !default.Dict? ==> r == Plain(default)
    {
      var value := DictGet(entries, k, default);
      if value.Dict? {
        var wrapped := new DotDict(value.entries);
        r := Wrapped(wrapped);
      } else {
        r := Plain(value);
      }
    }

    /** `d.k` for a key `k`: `self.get(k)`, so a missing key reads as `None` instead of raising. */
    method GetAttr(k: string) returns (r: Item)
      ensures k !in entries ==> r == Plain(PyNone)
      ensures k in entries && entries[k].Dict? ==>
                r.Wrapped? && fresh(r.d) && r.d.entries == entries[k].entries
      ensures k in entries && !entries[k].Dict? ==> r == Plain(entries[k])
    {
      r := Get(k, PyNone);
    }

    /** `d.k = v` is `d[k] = v`. */
    method SetAttr(k: string, v: Value)
      modifies this
      ensures entries == old(entries)[k := v]
    {
      entries := entries[k := v];
    }

    /** `del d.k` is `del d[k]`: a KeyError when `k` is absent. */
    method DelAttr(k: string) returns (r: Result<()>)
      modifies this
      ensures r.Ok? <==> k in old(entries)
      ensures r.Err? ==> r.error == KeyError
      ensures entries == old(entries) - {k}
    {
      if k in entries {
        entries := entries - {k};
        r := Ok(());
      } else {
        r := Err(KeyError);
      }
    }

    /** `d.update(other, **kwargs)`: the positional mapping first, then the keyword arguments, later
        entries overriding earlier ones; returns the same object. */
    method Update(other: map<string, Value>, kwargs: map<string, Value>) returns (self: DotDict)
      modifies this
      ensures self == this
      ensures entries == old(entries) + other + kwargs
    {
      entries := entries + other + kwargs;
      self := this;
    }

    /** `d.copy()`: a new `DotDict` with the same entries. */
    method Copy() returns (c: DotDict)
      ensures fresh(c)
      ensures c.entries == entries
    {
      c := new DotDict(entries);
    }
  }

  /** Assigning a key on a copy leaves the original as it was (the method may not modify `d`): the
      copy is a different object holding the original's entries plus the new one. */
  method AssignOnCopy(d: DotDict, k: string, v: Value) returns (c: DotDict)
    ensures c != d
    ensures c.entries == d.entries[k := v]
  {
    c := d.Copy();
    c.SetAttr(k, v);
  }
}
