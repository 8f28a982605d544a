/**
 * The mapping from a schema wire kind to the C type used for that
 * argument in the generated handlers and senders.
 */
module CTypes {
  import opened IR

  /**
   * C type of a wire kind. Unsigned integers and new-object ids are
   * `uint32_t`, signed integers and file descriptors `int32_t`; any kind
   * outside the closed set is an error.
   */
  function WPTypeToCType(wptype: string): (r: Result<string>)
    ensures r.Ok? <==> wptype in Kinds
    ensures r.Err? ==> r.error == UnknownWpType
  {
    if wptype == "uint" || wptype == "new_id" then Ok("uint32_t")
    else if wptype == "object" then Ok("wl_resource*")
    else if wptype == "int" || wptype == "fd" then Ok("int32_t")
    else if wptype == "fixed" then Ok("wl_fixed_t")
    else if wptype == "array" then Ok("wl_array*")
    else if wptype == "string" then Ok("const char*")
    else Err(UnknownWpType)
  }

  /** The eight kinds and the C type each one gets. */
  lemma CTypeTable()
    ensures WPTypeToCType("uint") == Ok("uint32_t") && WPTypeToCType("new_id") == Ok("uint32_t")
    ensures WPTypeToCType("int") == Ok("int32_t") && WPTypeToCType("fd") == Ok("int32_t")
    ensures WPTypeToCType("object") == Ok("wl_resource*")
    ensures WPTypeToCType("fixed") == Ok("wl_fixed_t")
    ensures WPTypeToCType("array") == Ok("wl_array*")
    ensures WPTypeToCType("string") == Ok("const char*")
  {
  }

  /** An argument as the schema reader stores it: its C type is the one its kind maps to. */
  predicate ArgTyped(a: Arg)
  {
    a.wlType in Kinds && WPTypeToCType(a.wlType) == Ok(a.cType)
  }

  /** Every C type the mapping yields is a non-empty type name, which never starts with a comma. */
  lemma CTypeIsName(a: Arg)
    requires ArgTyped(a)
    ensures |a.cType| > 0 && a.cType[0] != ','
  {
    CTypeTable();
  }

  predicate MessagesTyped(ms: seq<Message>)
  {
    forall m, a :: m in ms && a in m.args ==> ArgTyped(a)
  }

  /** Every argument of every request and event of every interface is typed. */
  predicate ModelTyped(ifaces: seq<Interface>)
  {
    forall i :: i in ifaces ==> MessagesTyped(i.requests) && MessagesTyped(i.events)
  }
}
