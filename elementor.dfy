/**
 * The Elementor integration's analysis helpers: counting the elements of a
 * page's Elementor data that carry a `_css_wrapper` setting, and the
 * performance recommendations. Whether Elementor is active, the post meta,
 * `json_decode`, the two database counts and the translation function are
 * parameters.
 */
module Elementor {
  import opened Wrappers
  import opened PhpValues

  /** `isset($element['settings']['_css_wrapper'])`. */
  predicate HasCssWrapper(element: Value)
  {
    element.VArr? && IsSetKey(element.entries, KStr("settings"))
      && var settings := Lookup(element.entries, KStr("settings")).value;
      settings.VArr? && IsSetKey(settings.entries, KStr("_css_wrapper"))
  }

  /** `isset($element['elements']) && is_array($element['elements'])`. */
  predicate HasChildren(element: Value)
  {
    element.VArr? && IsSetKey(element.entries, KStr("elements"))
      && Lookup(element.entries, KStr("elements")).value.VArr?
  }

  /** `$element['elements']`, found by position so that it is visibly part of the element. */
  function Children(element: Value): (c: Value)
    requires HasChildren(element)
    ensures c.VArr? && c < element
  {
    element.entries[IndexOfKey(element.entries, KStr("elements"))].val
  }

  /** What count_css_methods_recursive adds up over the first n elements of an array. */
  function CssCount(elements: Value, n: nat): nat
    requires elements.VArr? && n <= |elements.entries|
    decreases elements, n
  {
    if n == 0 then 0 else CssCount(elements, n - 1) + ElementCount(elements.entries[n - 1].val)
  }

  /** One element's share: 1 for its own wrapper, plus its children's count. */
  function ElementCount(element: Value): nat
    decreases element, if element.VArr? then |element.entries| + 1 else 0
  {
    (if HasCssWrapper(element) then 1 else 0)
      + (if HasChildren(element) then CssCount(Children(element), |Children(element).entries|) else 0)
  }

  /** count_css_methods_recursive: one pass over the array, recursing into each element's children. */
  method CountCssMethodsRecursive(elements: Value) returns (count: nat)
    requires elements.VArr?
    ensures count == CssCount(elements, |elements.entries|)
    decreases elements
  {
    count := 0;
    var i := 0;
    while i < |elements.entries|
      invariant 0 <= i <= |elements.entries|
      invariant count == CssCount(elements, i)
    {
      var element := elements.entries[i].val;
      var own := if HasCssWrapper(element) then 1 else 0;
      count := count + own;
      if HasChildren(element) {
        var sub := CountCssMethodsRecursive(Children(element));
        count := count + sub;
      }
      i := i + 1;
    }
  }

  /** get_post_elementor_data: null unless the post uses Elementor and has data, else the decoded JSON. */
  function PostElementorData(usingElementor: bool, meta: Value, jsonDecode: Value -> Value): (data: Value)
    ensures !usingElementor || IsEmpty(meta) ==> data == VNull
  {
    if !usingElementor || IsEmpty(meta) then VNull else jsonDecode(meta)
  }

  /** get_css_methods_count: 0 for empty data, a TypeError (None) for data that is not an array. */
  method GetCssMethodsCount(data: Value) returns (r: Option<nat>)
    ensures IsEmpty(data) ==> r == Some(0)
    ensures !IsEmpty(data) && !data.VArr? ==> r.None?
    ensures data.VArr? ==> r == Some(CssCount(data, |data.entries|))
  {
    if IsEmpty(data) {
      return Some(0);
    }
    if !data.VArr? {
      return None;
    }
    var n := CountCssMethodsRecursive(data);
    return Some(n);
  }

  // ---------------------------------------------------------------------
  // The reference definition: the element nodes of the tree, in order

  /** Every element below the first n entries of an array, each before its children. */
  function NodesIn(elements: Value, n: nat): seq<Value>
    requires elements.VArr? && n <= |elements.entries|
    decreases elements, n
  {
    if n == 0 then [] else NodesIn(elements, n - 1) + Subtree(elements.entries[n - 1].val)
  }

  function Subtree(element: Value): seq<Value>
    decreases element, if element.VArr? then |element.entries| + 1 else 0
  {
    [element] + (if HasChildren(element) then NodesIn(Children(element), |Children(element).entries|) else [])
  }

  /** How many of the nodes carry a wrapper. */
  function Wrapped(nodes: seq<Value>): nat
    decreases |nodes|
  {
    if |nodes| == 0 then 0
    else Wrapped(nodes[..|nodes| - 1]) + (if HasCssWrapper(nodes[|nodes| - 1]) then 1 else 0)
  }

  lemma {:induction false} WrappedAppend(a: seq<Value>, b: seq<Value>)
    ensures Wrapped(a + b) == Wrapped(a) + Wrapped(b)
    decreases |b|
  {
    if |b| == 0 {
      assert a + b == a;
    } else {
      assert (a + b)[..|a + b| - 1] == a + b[..|b| - 1];
      WrappedAppend(a, b[..|b| - 1]);
    }
  }

  /** The count is the number of element nodes anywhere in the tree that carry `_css_wrapper`. */
  lemma {:induction false} CssCountIsWrappedNodes(elements: Value, n: nat)
    requires elements.VArr? && n <= |elements.entries|
    ensures CssCount(elements, n) == Wrapped(NodesIn(elements, n))
    decreases elements, n
  {
    if n > 0 {
      CssCountIsWrappedNodes(elements, n - 1);
      ElementCountIsWrapped(elements.entries[n - 1].val);
      WrappedAppend(NodesIn(elements, n - 1), Subtree(elements.entries[n - 1].val));
    }
  }

  lemma {:induction false} ElementCountIsWrapped(element: Value)
    ensures ElementCount(element) == Wrapped(Subtree(element))
    decreases element, if element.VArr? then |element.entries| + 1 else 0
  {
    var rest := if HasChildren(element) then NodesIn(Children(element), |Children(element).entries|) else [];
    if HasChildren(element) {
      CssCountIsWrappedNodes(Children(element), |Children(element).entries|);
    }
    WrappedAppend([element], rest);
    assert [element][..0] == [];
  }

  /** No element can count more than once: the count is at most the number of element nodes. */
  lemma {:induction false} WrappedBound(nodes: seq<Value>)
    ensures Wrapped(nodes) <= |nodes|
    ensures Wrapped(nodes) == 0 <==> forall i :: 0 <= i < |nodes| ==> !HasCssWrapper(nodes[i])
    decreases |nodes|
  {
    if |nodes| > 0 {
      var init := nodes[..|nodes| - 1];
      WrappedBound(init);
      forall i | 0 <= i < |init| ensures init[i] == nodes[i] { }
    }
  }

  /** An empty array counts 0, and a flat array counts the elements that carry a wrapper themselves. */
  lemma FlatCount(elements: Value, n: nat)
    requires elements.VArr? && n <= |elements.entries|
    requires forall i :: 0 <= i < |elements.entries| ==> !HasChildren(elements.entries[i].val)
    ensures CssCount(elements, 0) == 0
    ensures CssCount(elements, n) == Wrapped(Values(elements.entries)[..n])
  {
    FlatCountUpTo(elements, n);
  }

  lemma {:induction false} FlatCountUpTo(elements: Value, n: nat)
    requires elements.VArr? && n <= |elements.entries|
    requires forall i :: 0 <= i < |elements.entries| ==> !HasChildren(elements.entries[i].val)
    ensures CssCount(elements, n) == Wrapped(Values(elements.entries)[..n])
    decreases n
  {
    if n > 0 {
      FlatCountUpTo(elements, n - 1);
      var vs := Values(elements.entries);
      assert vs[..n][..n - 1] == vs[..n - 1];
    }
  }

  // ---------------------------------------------------------------------
  // get_performance_recommendations

  datatype Recommendation = Recommendation(kind: string, message: string, action: string)

  /** get_performance_recommendations, with the two database counts as parameters. */
  function PerformanceRecommendations(active: bool, templates: int, documentsTotal: int, translate: string -> string): (r: seq<Recommendation>)
  {
    if !active then []
    else
      (if templates > 50 then
        [Recommendation("warning", translate("You have many Elementor templates. Consider deleting unused ones."), "elementor_library")]
      else [])
      + (if documentsTotal > 100 then
        [Recommendation("info", translate("Consider enabling Elementor cache to improve performance."), "cache")]
      else [])
  }

  /**
   * No advice while Elementor is inactive; otherwise a warning exactly when
   * there are more than 50 templates and a cache hint exactly when more than
   * 100 documents use the builder, the warning first.
   */
  lemma RecommendationsMeans(active: bool, templates: int, documentsTotal: int, translate: string -> string)
    ensures var r := PerformanceRecommendations(active, templates, documentsTotal, translate);
      (!active ==> r == [])
      && |r| <= 2
      && (active ==> ((exists i :: 0 <= i < |r| && r[i].kind == "warning") <==> templates > 50))
      && (active ==> ((exists i :: 0 <= i < |r| && r[i].kind == "info") <==> documentsTotal > 100))
      && (|r| == 2 ==> r[0].kind == "warning" && r[0].action == "elementor_library" && r[1].kind == "info" && r[1].action == "cache")
  {
    var r := PerformanceRecommendations(active, templates, documentsTotal, translate);
    if active && templates > 50 {
      assert r[0].kind == "warning";
    }
    if active && documentsTotal > 100 {
      assert r[|r| - 1].kind == "info";
    }
  }
}
