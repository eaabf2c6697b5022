/** Parsed JSON values as Python's `json` module returns them, and Python's
    subscript operator `v[k]` on them, with the exception each failure raises. */
module Json {
  import opened Wrappers

  /** A decoded JSON document: None, bool, int, str, list or dict. */
  datatype Json =
    | JNull
    | JBool(b: bool)
    | JNum(n: int)
    | JStr(s: string)
    | JArr(items: seq<Json>)
    | JObj(fields: map<string, Json>)

  /** The Python exceptions that navigating a decoded document can raise. */
  datatype PyError = KeyError | IndexError | TypeError | AttributeError

  /** A subscript: `v["name"]` or `v[i]` with a non-negative integer. */
  datatype Selector = Key(name: string) | Index(i: nat)

  /** Python's `v[sel]`. A dict looks the key up (an int never matches, since
      JSON keys are strings); a list or a str is indexed; every other
      combination is a TypeError. */
  function Subscript(v: Json, sel: Selector): (r: Result<Json, PyError>)
    ensures r.Err? ==> r.error in {KeyError, IndexError, TypeError}
    ensures r == Err(KeyError) ==> v.JObj?
    ensures r == Err(IndexError) ==> v.JArr? || v.JStr?
  {
    match sel
    case Key(k) =>
      if v.JObj? then
        if k in v.fields then Ok(v.fields[k]) else Err(KeyError)
      else Err(TypeError)
    case Index(i) =>
      match v
      case JArr(items) => if i < |items| then Ok(items[i]) else Err(IndexError)
      case JStr(s) => if i < |s| then Ok(JStr([s[i]])) else Err(IndexError)
      case JObj(_) => Err(KeyError)
      case _ => Err(TypeError)
  }

  /** A chain of subscripts `v[s0][s1]...`, stopping at the first exception. */
  function Navigate(v: Json, path: seq<Selector>): Result<Json, PyError>
    decreases |path|
  {
    if path == [] then Ok(v)
    else
      match Subscript(v, path[0])
      case Err(e) => Err(e)
      case Ok(w) => Navigate(w, path[1..])
  }

  /** Navigating a concatenated path is navigating the first part, then the
      second from where the first ended. */
  lemma {:induction false} NavigateAppend(v: Json, p: seq<Selector>, q: seq<Selector>)
    ensures Navigate(v, p + q) ==
      match Navigate(v, p)
      case Err(e) => Err(e)
      case Ok(w) => Navigate(w, q)
    decreases |p|
  {
    if p == [] {
      assert p + q == q;
    } else {
      assert (p + q)[0] == p[0];
      assert (p + q)[1..] == p[1..] + q;
      match Subscript(v, p[0])
      case Err(_) =>
      case Ok(w) => NavigateAppend(w, p[1..], q);
    }
  }

  /** Every node along `path` is a container of the kind its selector needs
      (a dict for a key, a list for an index) and the node at the end of the
      path, when it is reached, is a string. */
  ghost predicate Shaped(v: Json, path: seq<Selector>)
    decreases |path|
  {
    if path == [] then v.JStr?
    else
      match path[0]
      case Key(k) => v.JObj? && (k in v.fields ==> Shaped(v.fields[k], path[1..]))
      case Index(i) => v.JArr? && (i < |v.items| ==> Shaped(v.items[i], path[1..]))
  }

  /** On a document of the expected shape, navigation either reaches a string
      or fails with a KeyError or IndexError: it never raises a TypeError. */
  lemma {:induction false} ShapedNavigation(v: Json, path: seq<Selector>)
    requires Shaped(v, path)
    ensures var r := Navigate(v, path);
      (r.Ok? && r.value.JStr?) || r == Err(KeyError) || r == Err(IndexError)
    decreases |path|
  {
    if path != [] {
      match Subscript(v, path[0])
      case Err(_) =>
      case Ok(w) => ShapedNavigation(w, path[1..]);
    }
  }
}
