/** The shared behaviour of API responses: chained attribute access (`rgetattr`, `rsetattr`),
    reading one attribute with a default and optional formatting (`attr`), key styling
    (`styling`) and the conversion of a response to a dict (`to_dict`).

    A response object is an `Obj` whose attributes are a map; `to_dict` also needs their order,
    so it takes the response's `vars()` as an ordered dict. Every dict the responses hold is a
    `DotDict`. */
module ResponsesBase {
  import opened Wrappers
  import opened Py
  import opened Values
  import opened ODicts

  // ---------------------------------------------------------------------------------------------
  // getattr / setattr, one segment at a time

  /** `getattr(o, name, *default)`: an object's attribute, or the default when it has none
      (AttributeError without a default). A `DotDict` answers every name from its entries and
      gives `None` for a missing key, so its default is never used. Other values have no
      attributes of their own. */
  function GetAttr(o: Value, name: string, default: Option<Value>): (r: Result<Value>)
    ensures r.Err? <==> default.None? && (o.Obj? ==> name !in o.attrs) && !o.Dict?
    ensures r.Err? ==> r.error == AttributeError
    ensures o.Obj? && name in o.attrs ==> r == Ok(o.attrs[name])
    ensures o.Dict? ==> r == Ok(DictGet(o.entries, name, PyNone))
    ensures !o.Dict? && !(o.Obj? && name in o.attrs) && default.Some? ==> r == Ok(default.value)
  {
    match o
    case Obj(attrs) =>
      if name in attrs then Ok(attrs[name])
      else if default.Some? then Ok(default.value) else Err(AttributeError)
    case Dict(entries) => Ok(DictGet(entries, name, PyNone))
    case _ => if default.Some? then Ok(default.value) else Err(AttributeError)
  }

  /** `setattr(o, name, v)`: an object takes the attribute, a `DotDict` the key; the built-in
      values refuse new attributes. */
  function SetAttr(o: Value, name: string, v: Value): (r: Result<Value>)
    ensures r.Ok? <==> o.Obj? || o.Dict?
    ensures r.Err? ==> r.error == AttributeError
    ensures r.Ok? ==> GetAttr(r.value, name, None) == Ok(v)
    ensures o.Obj? ==> r == Ok(Obj(o.attrs[name := v]))
    ensures o.Dict? ==> r == Ok(Dict(o.entries[name := v]))
  {
    match o
    case Obj(attrs) => Ok(Obj(attrs[name := v]))
    case Dict(entries) => Ok(Dict(entries[name := v]))
    case _ => Err(AttributeError)
  }

  // ---------------------------------------------------------------------------------------------
  // rgetattr

  /** `functools.reduce(getattr, [o] + path)`, with the same default at every step. */
  function GetPath(o: Value, path: seq<string>, default: Option<Value>): Result<Value>
    decreases path
  {
    if path == [] then Ok(o)
    else
      var child :- GetAttr(o, path[0], default);
      GetPath(child, path[1..], default)
  }

  /** `rgetattr(o, key, *default)`: one `getattr` per dot-separated segment of `key`. */
  function RGetAttr(o: Value, key: string, default: Option<Value>): Result<Value> {
    GetPath(o, Split(key, '.'), default)
  }

  /** Following one more segment is one more `getattr` on what the path led to. */
  lemma {:induction false} GetPathAppend(o: Value, path: seq<string>, name: string, default: Option<Value>)
    decreases path
    ensures GetPath(o, path + [name], default) ==
              match GetPath(o, path, default)
              case Ok(x) => GetAttr(x, name, default)
              case Err(e) => Err(e)
  {
    if path == [] {
      assert ([] + [name])[1..] == [];
    } else {
      assert (path + [name])[0] == path[0] && (path + [name])[1..] == path[1..] + [name];
      match GetAttr(o, path[0], default)
      case Ok(child) => GetPathAppend(child, path[1..], name, default);
      case Err(_) =>
    }
  }

  /** With a default, no step of the chain can fail. */
  lemma {:induction false} GetPathWithDefault(o: Value, path: seq<string>, d: Value)
    ensures GetPath(o, path, Some(d)).Ok?
    decreases path
  {
    if path != [] {
      GetPathWithDefault(GetAttr(o, path[0], Some(d)).value, path[1..], d);
    }
  }

  /** A key without a dot is a single `getattr`. */
  lemma RGetAttrSingle(o: Value, key: string, default: Option<Value>)
    requires '.' !in key
    ensures RGetAttr(o, key, default) == GetAttr(o, key, default)
  {
    SplitWithout(key, '.');
    assert [key][1..] == [];
    match GetAttr(o, key, default)
    case Ok(child) => assert GetPath(child, [], default) == Ok(child);
    case Err(_) =>
  }

  /** `rgetattr(o, "pre.post")` is `getattr(rgetattr(o, "pre"), "post")`. */
  lemma RGetAttrDotted(o: Value, pre: string, post: string, default: Option<Value>)
    requires '.' !in post
    ensures RGetAttr(o, pre + "." + post, default) ==
              match RGetAttr(o, pre, default)
              case Ok(x) => GetAttr(x, post, default)
              case Err(e) => Err(e)
  {
    SplitAppend(pre, '.', post);
    GetPathAppend(o, Split(pre, '.'), post, default);
  }

  // ---------------------------------------------------------------------------------------------
  // rsetattr

  /** `setattr(reduce(getattr, [o] + path), post, val)` as it affects `o`. The object reached is
      the one `o` holds, except that a `DotDict` hands out every dict value as a new `DotDict`:
      a write below such a step goes to that copy and is lost, though its errors still surface. */
  function SetPath(o: Value, path: seq<string>, post: string, val: Value): Result<Value>
    decreases path
  {
    if path == [] then SetAttr(o, post, val)
    else
      var child :- GetAttr(o, path[0], None);
      var child' :- SetPath(child, path[1..], post, val);
      if o.Dict? && child.Dict? then Ok(o)
      else if o.Obj? then Ok(Obj(o.attrs[path[0] := child']))
      else if o.Dict? then Ok(Dict(o.entries[path[0] := child']))
      else Ok(o)
  }

  /** `rsetattr(o, attr, val)`: set the last segment of `attr` on the object the others lead to,
      or on `o` itself when there is no dot before it. */
  function RSetAttr(o: Value, attr: string, val: Value): (r: Result<Value>)
    ensures '.' !in attr ==> r == SetAttr(o, attr, val)
  {
    var (pre, post) := RPartition(attr, '.');
    if pre == "" then SetAttr(o, post, val)
    else SetPath(o, Split(pre, '.'), post, val)
  }

  /** Every step of `path` from `o` leads to an object `o` holds by reference: no `DotDict` on the
      way hands out a dict value. */
  predicate ByReference(o: Value, path: seq<string>)
    decreases path
  {
    path == [] ||
    (GetAttr(o, path[0], None).Ok? && !(o.Dict? && GetAttr(o, path[0], None).value.Dict?)
     && ByReference(GetAttr(o, path[0], None).value, path[1..]))
  }

  /** Where the path leads by reference, the value set is the value read back. */
  lemma {:induction false} SetPathThenGet(o: Value, path: seq<string>, post: string, val: Value)
    requires SetPath(o, path, post, val).Ok? && ByReference(o, path)
    ensures GetPath(SetPath(o, path, post, val).value, path + [post], None) == Ok(val)
    decreases path
  {
    var o' := SetPath(o, path, post, val).value;
    if path == [] {
      assert ([] + [post])[1..] == [];
    } else {
      var child := GetAttr(o, path[0], None).value;
      SetPathThenGet(child, path[1..], post, val);
      var child' := SetPath(child, path[1..], post, val).value;
      assert GetAttr(o', path[0], None) == Ok(child');
      assert (path + [post])[0] == path[0] && (path + [post])[1..] == path[1..] + [post];
    }
  }

  /** `rgetattr(rsetattr(o, "pre.post", val), "pre.post")` gives `val` back when `pre` leads to
      an object by reference. */
  lemma RSetAttrThenGet(o: Value, pre: string, post: string, val: Value)
    requires pre != "" && '.' !in post
    requires ByReference(o, Split(pre, '.'))
    requires RSetAttr(o, pre + "." + post, val).Ok?
    ensures RGetAttr(RSetAttr(o, pre + "." + post, val).value, pre + "." + post, None) == Ok(val)
  {
    assert pre + "." + post == pre + ['.'] + post;
    RPartitionLast(pre, '.', post);
    SplitAppend(pre, '.', post);
    SetPathThenGet(o, Split(pre, '.'), post, val);
  }

  /** For dict-only data, writing below a dict value of a `DotDict` changes nothing: the
      `DotDict` handed out a copy. (The copy is shallow: an object held inside the dict would be
      shared, which values cannot express.) */
  lemma WriteBelowDictIsLost(o: Value, path: seq<string>, post: string, val: Value)
    requires o.Dict? && path != [] && DictGet(o.entries, path[0], PyNone).Dict?
    ensures SetPath(o, path, post, val).Ok? ==> SetPath(o, path, post, val).value == o
  {
  }

  // ---------------------------------------------------------------------------------------------
  // attr

  /** `self.attr(key, default, auto_format=auto_format)` on the paths without casts, JSON
      parsing or dates: the attribute found through `rgetattr` (`default` where it is `None`),
      returned as it is when falsy. With `auto_format` a non-empty list or dict goes to
      `ast.literal_eval`, which refuses a non-string, and a string of digits is cast to `int`;
      any failure is re-raised as a plain `Exception`. */
  function Attr(self: Value, key: string, default: Value, autoFormat: bool): (r: Result<Value>)
    ensures r.Err? ==> r.error == Reraised
  {
    match RGetAttr(self, key, Some(default))
    case Err(_) => Err(Reraised)
    case Ok(found) =>
      var value := if found == PyNone then default else found;
      if !Truthy(value) then Ok(value)
      else if autoFormat && (value.List? || value.Dict?) then Err(Reraised)
      else if autoFormat && value.Str? && IsDigits(value.s) then Ok(Int(DecimalValue(value.s)))
      else Ok(value)
  }

  /** What `attr` finds: the attribute `rgetattr` reaches, or `default` in place of `None`. */
  function Found(self: Value, key: string, default: Value): Value {
    GetPathWithDefault(self, Split(key, '.'), default);
    var found := RGetAttr(self, key, Some(default)).value;
    if found == PyNone then default else found
  }

  /** `attr` never fails for lack of an attribute; it gives what it found, unformatted, when that
      is falsy or `auto_format` is off, and fails only on a list or dict to auto-format. */
  lemma AttrOutcome(self: Value, key: string, default: Value, autoFormat: bool)
    ensures var v := Found(self, key, default);
      && (!Truthy(v) || !autoFormat ==> Attr(self, key, default, autoFormat) == Ok(v))
      && (Attr(self, key, default, autoFormat).Err? <==> autoFormat && Truthy(v) && (v.List? || v.Dict?))
      && (autoFormat && Truthy(v) && !v.List? && !v.Dict? && !(v.Str? && IsDigits(v.s)) ==>
            Attr(self, key, default, autoFormat) == Ok(v))
  {
    GetPathWithDefault(self, Split(key, '.'), default);
  }

  /** With `auto_format`, an attribute holding the decimal text of a number reads as that
      number. */
  lemma AttrReadsNumber(self: Value, key: string, default: Value, n: nat)
    requires Found(self, key, default) == Str(NatToString(n))
    ensures Attr(self, key, default, true) == Ok(Int(n))
  {
    GetPathWithDefault(self, Split(key, '.'), default);
    DecimalValueOfNatToString(n);
  }

  // ---------------------------------------------------------------------------------------------
  // styling

  /** `Lower` applied to every character. */
  function LowerAll(s: string): (r: string)
    ensures |r| == |s| && forall i :: 0 <= i < |s| ==> r[i] == Lower(s[i])
  {
    if s == [] then [] else [Lower(s[0])] + LowerAll(s[1..])
  }

  /** `self.styling(value, camel_case, dotted_key_merge)`: dots become underscores when merging
      dotted keys; camel-casing turns underscores into spaces, title-cases the words, drops the
      spaces and lower-cases the first character, failing when nothing is left. */
  function Styling(value: string, camelCase: bool, dottedKeyMerge: bool): (r: Result<string>)
    ensures r.Err? ==> r.error == Reraised
  {
    var merged := if dottedKeyMerge then ReplaceChar(value, '.', '_') else value;
    if camelCase then
      var tmp := RemoveChar(Title(ReplaceChar(merged, '_', ' ')), ' ');
      if tmp == [] then Err(Reraised) else Ok([Lower(tmp[0])] + tmp[1..])
    else Ok(merged)
  }

  /** With both options off a key keeps its name; merging dotted keys replaces every dot by an
      underscore and changes nothing else. */
  lemma StylingPlain(value: string, dottedKeyMerge: bool)
    ensures !dottedKeyMerge ==> Styling(value, false, false) == Ok(value)
    ensures dottedKeyMerge ==>
              && Styling(value, false, true).Ok?
              && |Styling(value, false, true).value| == |value|
              && '.' !in Styling(value, false, true).value
              && forall i :: 0 <= i < |value| && value[i] != '.' ==> Styling(value, false, true).value[i] == value[i]
  {
  }

  /** `s` without its underscores and spaces. */
  function Squeeze(s: string): (r: string)
    ensures forall x :: x in r <==> x in s && x != '_' && x != ' '
  {
    if s == [] then [] else (if s[0] == '_' || s[0] == ' ' then [] else [s[0]]) + Squeeze(s[1..])
  }

  lemma LowerAllAppend(a: string, b: string)
    ensures LowerAll(a + b) == LowerAll(a) + LowerAll(b)
  {
    var l, r := LowerAll(a + b), LowerAll(a) + LowerAll(b);
    forall i | 0 <= i < |l| ensures l[i] == r[i] {
      if i >= |a| {
        assert (a + b)[i] == b[i - |a|];
      }
    }
  }

  // One character at the front of each function the camel-casing composes.

  lemma ReplaceCons(x: char, t: string, a: char, b: char)
    ensures ReplaceChar([x] + t, a, b) == [if x == a then b else x] + ReplaceChar(t, a, b)
  {
    assert ([x] + t)[1..] == t;
  }

  lemma TitleCons(y: char, t: string, prevCased: bool)
    ensures TitleFrom([y] + t, prevCased) == [if prevCased then Lower(y) else Upper(y)] + TitleFrom(t, IsCased(y))
  {
    assert ([y] + t)[1..] == t;
  }

  lemma RemoveCons(z: char, t: string, c: char)
    ensures RemoveChar([z] + t, c) == (if z == c then [] else [z]) + RemoveChar(t, c)
  {
    assert ([z] + t)[1..] == t;
  }

  lemma LowerSqueezeCons(x: char, t: string)
    ensures Squeeze(LowerAll([x] + t)) ==
              (if x == '_' || x == ' ' then [] else [Lower(x)]) + Squeeze(LowerAll(t))
  {
    assert ([x] + t)[1..] == t;
    var l := LowerAll([x] + t);
    assert l == [Lower(x)] + LowerAll(t);
    assert l[1..] == LowerAll(t);
  }

  /** One character of a key through the camel-casing: an underscore becomes a space, the
      character is title-cased, and a space is dropped; up to case, what is left is the character
      itself unless it was a separator. */
  lemma CamelChar(x: char, prevCased: bool)
    ensures var y := if x == '_' then ' ' else x;
      var z := if prevCased then Lower(y) else Upper(y);
      && IsCased(y) == IsCased(x)
      && LowerAll(if z == ' ' then [] else [z]) == if x == '_' || x == ' ' then [] else [Lower(x)]
  {
    var y := if x == '_' then ' ' else x;
    var z := if prevCased then Lower(y) else Upper(y);
    if z != ' ' {
      assert Lower(z) == Lower(x);
    }
  }

  /** The camel-cased text of a key (before its first character is lower-cased) has the key's
      letters, up to case, with the underscores and spaces gone. */
  lemma {:induction false} CamelLetters(s: string, prevCased: bool)
    ensures LowerAll(RemoveChar(TitleFrom(ReplaceChar(s, '_', ' '), prevCased), ' ')) == Squeeze(LowerAll(s))
  {
    if s != [] {
      var x, t := s[0], s[1..];
      assert s == [x] + t;
      var y := if x == '_' then ' ' else x;
      var z := if prevCased then Lower(y) else Upper(y);
      CamelChar(x, prevCased);
      var titled := TitleFrom(ReplaceChar(t, '_', ' '), IsCased(x));
      ReplaceCons(x, t, '_', ' ');
      TitleCons(y, ReplaceChar(t, '_', ' '), prevCased);
      RemoveCons(z, titled, ' ');
      LowerAllAppend(if z == ' ' then [] else [z], RemoveChar(titled, ' '));
      CamelLetters(t, IsCased(x));
      LowerSqueezeCons(x, t);
    }
  }

  /** A key lower-cases and squeezes to nothing exactly when it is made of separators. */
  lemma SqueezeEmpty(u: string)
    ensures Squeeze(LowerAll(u)) == [] <==> forall i :: 0 <= i < |u| ==> u[i] == '_' || u[i] == ' '
  {
    var letters := Squeeze(LowerAll(u));
    if letters != [] {
      assert letters[0] in letters;
      var i :| 0 <= i < |LowerAll(u)| && LowerAll(u)[i] == letters[0];
      assert u[i] != '_' && u[i] != ' ';
    } else {
      forall i | 0 <= i < |u| ensures u[i] == '_' || u[i] == ' ' {
        assert LowerAll(u)[i] !in letters;
      }
    }
  }

  /** A character that is not a letter occurs in a lower-cased text exactly where it occurred before. */
  lemma UncasedInLowerAll(u: string, c: char)
    requires !IsCased(c)
    ensures c in LowerAll(u) <==> c in u
  {
    if c in u {
      var i :| 0 <= i < |u| && u[i] == c;
      assert LowerAll(u)[i] == c;
    }
    if c in LowerAll(u) {
      var i :| 0 <= i < |u| && LowerAll(u)[i] == c;
      assert u[i] == c;
    }
  }

  /** Lower-casing the first character does not change the lower-cased text. */
  lemma LowerFirst(t: string)
    requires t != []
    ensures LowerAll([Lower(t[0])] + t[1..]) == LowerAll(t)
  {
    var r := [Lower(t[0])] + t[1..];
    forall i | 0 <= i < |r| ensures LowerAll(r)[i] == LowerAll(t)[i] {
      if i == 0 {
        assert Lower(Lower(t[0])) == Lower(t[0]);
      }
    }
  }

  /** Camel-casing keeps the text of the key up to case, without its underscores and spaces (and
      dots, when merging dotted keys); it starts with a character that is not upper-case, and it
      fails exactly when the key is made of separators only. */
  lemma CamelCase(value: string, dottedKeyMerge: bool)
    ensures var merged := if dottedKeyMerge then ReplaceChar(value, '.', '_') else value;
      var r := Styling(value, true, dottedKeyMerge);
      && (r.Err? <==> forall i :: 0 <= i < |merged| ==> merged[i] == '_' || merged[i] == ' ')
      && (r.Ok? ==>
            && r.value != [] && !IsUpper(r.value[0])
            && LowerAll(r.value) == Squeeze(LowerAll(merged))
            && '_' !in r.value && ' ' !in r.value
            && (dottedKeyMerge ==> '.' !in r.value))
  {
    var merged := if dottedKeyMerge then ReplaceChar(value, '.', '_') else value;
    var tmp := RemoveChar(Title(ReplaceChar(merged, '_', ' ')), ' ');
    CamelLetters(merged, false);
    var letters := Squeeze(LowerAll(merged));
    assert tmp == [] <==> letters == [];
    SqueezeEmpty(merged);
    if tmp != [] {
      var r := [Lower(tmp[0])] + tmp[1..];
      assert Styling(value, true, dottedKeyMerge) == Ok(r);
      LowerFirst(tmp);
      UncasedInLowerAll(r, '_');
      UncasedInLowerAll(r, ' ');
      if dottedKeyMerge {
        UncasedInLowerAll(merged, '.');
        UncasedInLowerAll(r, '.');
      }
    }
  }

  // ---------------------------------------------------------------------------------------------
  // to_dict

  /** One turn of the first loop of `to_dict`: the field's styled key gets `self.attr(field)`;
      a field whose key or value fails is skipped. */
  function CollectStep(self: Value, acc: ODict, field: string): ODict {
    match (Styling(field, false, false), Attr(self, field, PyNone, false))
    case (Ok(key), Ok(v)) => Put(acc, key, v)
    case _ => acc
  }

  /** The first loop of `to_dict` over the remaining `fields`, from `acc`. */
  function CollectFrom(self: Value, fields: ODict, acc: ODict): ODict
    decreases |fields|
  {
    if fields == [] then acc else CollectFrom(self, fields[1..], CollectStep(self, acc, fields[0].0))
  }

  /** One turn of the nesting loop of `to_dict`: a key with a dot goes under its first segment,
      in a dict created on first use (`setdefault`), keyed by its second segment; a value already
      under the first segment that is not a dict cannot take an item (TypeError). */
  function NestStep(acc: ODict, key: string, value: Value): Result<ODict> {
    var items := Split(key, '.');
    if |items| > 1 then
      match Get(acc, items[0])
      case None => Ok(Put(acc, items[0], Dict(map[items[1] := value])))
      case Some(Dict(e)) => Ok(Put(acc, items[0], Dict(e[items[1] := value])))
      case Some(_) => Err(TypeError)
    else Ok(Put(acc, key, value))
  }

  /** The nesting loop of `to_dict` over the remaining entries `d`, from `acc`. */
  function NestFrom(d: ODict, acc: ODict): Result<ODict>
    decreases |d|
  {
    if d == [] then Ok(acc)
    else
      var acc' :- NestStep(acc, d[0].0, d[0].1);
      NestFrom(d[1..], acc')
  }

  /** `self.to_dict(ignore_none, dotted_key_to_dict)` for a response whose `vars()` are
      `fields`: every field read through `attr`, the `None` values dropped if asked, dotted keys
      nested if asked; a failure while nesting is re-raised. */
  function ToDictSpec(fields: ODict, ignoreNone: bool, dottedKeyToDict: bool): Result<ODict> {
    var collected := CollectFrom(Obj(AsMap(fields)), fields, []);
    var kept := if ignoreNone then DropNone(collected) else collected;
    if !dottedKeyToDict then Ok(kept)
    else
      match NestFrom(kept, [])
      case Ok(n) => Ok(n)
      case Err(_) => Err(Reraised)
  }

  /** The first loop of `to_dict`: `fields_data[key_styling(field)] = self.attr(key=field)` for
      each field, skipping a field that fails. */
  method CollectFields(self: Value, fields: ODict) returns (fieldsData: ODict)
    ensures fieldsData == CollectFrom(self, fields, [])
  {
    fieldsData := [];
    var i := 0;
    while i < |fields|
      invariant 0 <= i <= |fields|
      invariant CollectFrom(self, fields[i..], fieldsData) == CollectFrom(self, fields, [])
    {
      assert fields[i..][1..] == fields[i + 1..];
      var key := Styling(fields[i].0, false, false);
      var value := Attr(self, fields[i].0, PyNone, false);
      if key.Ok? && value.Ok? {
        fieldsData := Put(fieldsData, key.value, value.value);
      }
      i := i + 1;
    }
    assert fields[i..] == [];
  }

  /** The dotted-key loop of `to_dict`, building `new_fields_data`. */
  method NestDottedKeys(fieldsData: ODict) returns (r: Result<ODict>)
    ensures r == NestFrom(fieldsData, [])
  {
    var newFieldsData: ODict := [];
    var j := 0;
    while j < |fieldsData|
      invariant 0 <= j <= |fieldsData|
      invariant NestFrom(fieldsData[j..], newFieldsData) == NestFrom(fieldsData, [])
    {
      assert fieldsData[j..][1..] == fieldsData[j + 1..];
      var step := NestStep(newFieldsData, fieldsData[j].0, fieldsData[j].1);
      if step.Err? {
        return step;
      }
      newFieldsData := step.value;
      j := j + 1;
    }
    assert fieldsData[j..] == [];
    r := Ok(newFieldsData);
  }

  /** `to_dict(ignore_none, dotted_key_to_dict)` on a response whose `vars()` are `fields`. */
  method ToDict(fields: ODict, ignoreNone: bool, dottedKeyToDict: bool) returns (r: Result<ODict>)
    ensures r == ToDictSpec(fields, ignoreNone, dottedKeyToDict)
  {
    var fieldsData := CollectFields(Obj(AsMap(fields)), fields);
    if ignoreNone {
      fieldsData := DropNone(fieldsData);
    }
    if dottedKeyToDict {
      var nested := NestDottedKeys(fieldsData);
      if nested.Err? {
        return Err(Reraised);
      }
      fieldsData := nested.value;
    }
    r := Ok(fieldsData);
  }

  /** `self.attr(field)` for the fields of `d` in order. */
  function Read(self: Value, d: ODict): (r: ODict)
    ensures |r| == |d|
  {
    if d == [] then [] else [(d[0].0, Found(self, d[0].0, PyNone))] + Read(self, d[1..])
  }

  /** Appending the first entry of `d` to `acc`, when `acc` holds none of `d`'s keys, keeps that
      so for the rest of `d`. */
  lemma FreshPut(acc: ODict, d: ODict, v: Value)
    requires d != [] && DistinctKeys(d) && DistinctKeys(acc) && Keys(acc) !! Keys(d)
    ensures Put(acc, d[0].0, v) == acc + [(d[0].0, v)]
    ensures DistinctKeys(d[1..]) && DistinctKeys(acc + [(d[0].0, v)])
    ensures Keys(acc + [(d[0].0, v)]) !! Keys(d[1..])
  {
    KeysCons(d);
    PutShape(acc, d[0].0, v);
  }

  /** The first loop keeps every field, in order, under its own name, with the value `attr` reads. */
  lemma {:induction false} CollectReads(self: Value, d: ODict, acc: ODict)
    requires DistinctKeys(d) && DistinctKeys(acc) && Keys(acc) !! Keys(d)
    ensures CollectFrom(self, d, acc) == acc + Read(self, d)
    decreases |d|
  {
    if d != [] {
      var entry := (d[0].0, Found(self, d[0].0, PyNone));
      FreshPut(acc, d, entry.1);
      AttrOutcome(self, d[0].0, PyNone, false);
      StylingPlain(d[0].0, false);
      assert CollectStep(self, acc, d[0].0) == acc + [entry];
      CollectReads(self, d[1..], acc + [entry]);
      Associate(acc, entry, Read(self, d[1..]));
    }
  }

  lemma Associate<T>(a: seq<T>, x: T, b: seq<T>)
    ensures (a + [x]) + b == a + ([x] + b)
  {
  }

  /** An undotted field of an object reads as the object's attribute. */
  lemma {:induction false} ReadOwnFields(m: map<string, Value>, d: ODict)
    requires forall i :: 0 <= i < |d| ==> '.' !in d[i].0 && d[i].0 in m && m[d[i].0] == d[i].1
    ensures Read(Obj(m), d) == d
    decreases |d|
  {
    if d != [] {
      assert forall i :: 0 <= i < |d[1..]| ==> d[1..][i] == d[i + 1];
      ReadOwnFields(m, d[1..]);
      RGetAttrSingle(Obj(m), d[0].0, Some(PyNone));
      assert [(d[0].0, d[0].1)] + d[1..] == d;
    }
  }

  /** A response without dotted field names reads back as its own fields. */
  lemma CollectOwnFields(fields: ODict)
    requires DistinctKeys(fields)
    requires forall i :: 0 <= i < |fields| ==> '.' !in fields[i].0
    ensures CollectFrom(Obj(AsMap(fields)), fields, []) == fields
  {
    CollectReads(Obj(AsMap(fields)), fields, []);
    forall i | 0 <= i < |fields|
      ensures fields[i].0 in AsMap(fields) && AsMap(fields)[fields[i].0] == fields[i].1
    {
      GetAt(fields, i);
    }
    ReadOwnFields(AsMap(fields), fields);
    assert [] + fields == fields;
  }

  /** Nesting leaves entries with undotted keys as they are. */
  lemma {:induction false} NestUndotted(d: ODict, acc: ODict)
    requires DistinctKeys(d) && DistinctKeys(acc) && Keys(acc) !! Keys(d)
    requires forall i :: 0 <= i < |d| ==> '.' !in d[i].0
    ensures NestFrom(d, acc) == Ok(acc + d)
    decreases |d|
  {
    if d != [] {
      FreshPut(acc, d, d[0].1);
      assert (d[0].0, d[0].1) == d[0];
      SplitPieces(d[0].0, '.');
      assert NestStep(acc, d[0].0, d[0].1) == Ok(acc + [d[0]]);
      assert forall i :: 0 <= i < |d[1..]| ==> d[1..][i] == d[i + 1];
      NestUndotted(d[1..], acc + [d[0]]);
      Associate(acc, d[0], d[1..]);
      assert [d[0]] + d[1..] == d;
    } else {
      assert acc + d == acc;
    }
  }

  /** `to_dict()` of a response without dotted field names is its fields, unchanged: keys keep
      their names and order, values are the attributes; `dotted_key_to_dict` then changes
      nothing. */
  lemma ToDictOwnFields(fields: ODict, dottedKeyToDict: bool)
    requires DistinctKeys(fields)
    requires forall i :: 0 <= i < |fields| ==> '.' !in fields[i].0
    ensures ToDictSpec(fields, false, dottedKeyToDict) == Ok(fields)
  {
    CollectOwnFields(fields);
    if dottedKeyToDict {
      NestUndotted(fields, []);
      assert [] + fields == fields;
    }
  }

  /** `to_dict(ignore_none=True)` keeps exactly the fields whose value is not `None`. */
  lemma ToDictIgnoreNone(fields: ODict, k: string)
    requires DistinctKeys(fields)
    requires forall i :: 0 <= i < |fields| ==> '.' !in fields[i].0
    ensures ToDictSpec(fields, true, false) == Ok(DropNone(fields))
    ensures Get(DropNone(fields), k) == if Get(fields, k) == Some(PyNone) then None else Get(fields, k)
  {
    CollectOwnFields(fields);
    GetDropNone(fields, k);
  }

  /** With `dotted_key_to_dict`, an entry `a.b...` is stored at `new[a][b]`, in a dict made for it
      or in the one already there, and nowhere else; it fails only when `new[a]` holds something
      other than a dict. */
  lemma NestStepDotted(acc: ODict, key: string, value: Value)
    requires '.' in key
    ensures var items := Split(key, '.');
      var r := NestStep(acc, key, value);
      && |items| > 1
      && (r.Err? <==> Get(acc, items[0]).Some? && !Get(acc, items[0]).value.Dict?)
      && (r.Ok? ==>
            && Get(r.value, items[0]).Some? && Get(r.value, items[0]).value.Dict?
            && items[1] in Get(r.value, items[0]).value.entries
            && Get(r.value, items[0]).value.entries[items[1]] == value
            && (Get(acc, items[0]).Some? ==>
                  Get(r.value, items[0]).value.entries == Get(acc, items[0]).value.entries[items[1] := value])
            && forall k :: k != items[0] ==> Get(r.value, k) == Get(acc, k))
  {
    var items := Split(key, '.');
    SplitPieces(key, '.');
    var r := NestStep(acc, key, value);
    if r.Ok? {
      var nested := match Get(acc, items[0])
        case Some(prior) => Dict(prior.entries[items[1] := value])
        case None => Dict(map[items[1] := value]);
      assert r.value == Put(acc, items[0], nested);
      GetPut(acc, items[0], nested, items[0]);
      forall k | k != items[0] ensures Get(r.value, k) == Get(acc, k) {
        GetPut(acc, items[0], nested, k);
      }
    }
  }

  /** With `dotted_key_to_dict`, an entry whose key has no dot passes through unchanged. */
  lemma NestStepUndotted(acc: ODict, key: string, value: Value)
    requires '.' !in key
    ensures NestStep(acc, key, value) == Ok(Put(acc, key, value))
  {
    SplitPieces(key, '.');
  }

  /** Only the first two segments of a dotted key matter: `a.b.c` is stored as `a.b` is. */
  lemma NestStepFirstTwo(acc: ODict, key: string, key': string, value: Value)
    requires Split(key, '.')[0] == Split(key', '.')[0]
    requires |Split(key, '.')| > 1 && |Split(key', '.')| > 1 && Split(key, '.')[1] == Split(key', '.')[1]
    ensures NestStep(acc, key, value) == NestStep(acc, key', value)
  {
  }
}
