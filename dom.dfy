/**
 * An already parsed HTML page, as BeautifulSoup presents it: text nodes and elements with
 * a tag, their class list, their other attributes and their children. The searches the
 * scraper uses (`find_all`, `find`, `get`, `get_text(strip=True)`) are stated over it.
 */
module Dom {
  import opened Wrappers
  import opened PyText

  /** `classes` holds the `class` attribute split on whitespace, as BeautifulSoup returns it;
      `attrs` holds every other attribute. */
  datatype Node =
    | Text(content: string)
    | Element(tag: string, classes: seq<string>, attrs: map<string, string>, children: seq<Node>)

  /** The descendants of `n`, without `n` itself, in document (pre-)order. */
  function Descendants(n: Node): seq<Node>
    decreases n, 1
  {
    if n.Text? then [] else Forest(n.children)
  }

  /** The nodes of a list of siblings and all their descendants, in document order. */
  function Forest(cs: seq<Node>): seq<Node>
    decreases cs, 0
  {
    if cs == [] then [] else [cs[0]] + Descendants(cs[0]) + Forest(cs[1..])
  }

  /** The elements of `ns` that satisfy `f`, in their order. */
  function Filter(ns: seq<Node>, f: Node -> bool): (r: seq<Node>)
    ensures |r| <= |ns|
    ensures forall n :: n in r <==> n in ns && f(n)
  {
    if ns == [] then [] else Filter(ns[..|ns| - 1], f) + (if f(ns[|ns| - 1]) then [ns[|ns| - 1]] else [])
  }

  lemma {:induction false} FilterAppend(xs: seq<Node>, ys: seq<Node>, f: Node -> bool)
    ensures Filter(xs + ys, f) == Filter(xs, f) + Filter(ys, f)
    decreases |ys|
  {
    if ys == [] {
      assert xs + ys == xs;
    } else {
      var ysInit := ys[..|ys| - 1];
      var last := ys[|ys| - 1];
      var tail := if f(last) then [last] else [];
      assert (xs + ys)[..|xs + ys| - 1] == xs + ysInit;
      assert (xs + ys)[|xs + ys| - 1] == last;
      assert Filter(xs + ys, f) == Filter(xs + ysInit, f) + tail;
      FilterAppend(xs, ysInit, f);
      assert Filter(ys, f) == Filter(ysInit, f) + tail;
    }
  }

  function IsTagged(tag: string): Node -> bool {
    (n: Node) => n.Element? && n.tag == tag
  }

  function HasClass(c: string): Node -> bool {
    (n: Node) => n.Element? && c in n.classes
  }

  function LacksClass(c: string): Node -> bool {
    (n: Node) => !(n.Element? && c in n.classes)
  }

  function HasAttr(key: string): Node -> bool {
    (n: Node) => n.Element? && key in n.attrs
  }

  /** `n.find_all(tag)` */
  function FindAll(n: Node, tag: string): (r: seq<Node>)
    ensures forall m :: m in r <==> m in Descendants(n) && m.Element? && m.tag == tag
  {
    Filter(Descendants(n), IsTagged(tag))
  }

  /** `n.find_all(tag, class_=c)`: the class is matched against each of the element's classes. */
  function FindAllWithClass(n: Node, tag: string, c: string): (r: seq<Node>)
    ensures forall m :: m in r <==> m in Descendants(n) && m.Element? && m.tag == tag && c in m.classes
  {
    Filter(FindAll(n, tag), HasClass(c))
  }

  function First(ns: seq<Node>): (r: Option<Node>)
    ensures r.None? <==> ns == []
    ensures r.Some? ==> r.value == ns[0]
  {
    if ns == [] then None else Some(ns[0])
  }

  /** `n.find(tag)`: the first matching descendant in document order, `None` if there is none. */
  function Find(n: Node, tag: string): Option<Node> {
    First(FindAll(n, tag))
  }

  /** `n.find(tag, class_=c)` */
  function FindWithClass(n: Node, tag: string, c: string): Option<Node> {
    First(FindAllWithClass(n, tag, c))
  }

  /** `n.get(key, default)`: the attribute's value when the element has it, else `default`. */
  function Get(n: Node, key: string, default: string): (r: string)
    ensures n.Element? && key in n.attrs ==> r == n.attrs[key]
    ensures r != default ==> n.Element? && key in n.attrs
  {
    if n.Element? && key in n.attrs then n.attrs[key] else default
  }

  /** `n.get_text(strip=True)`: every text node below `n`, stripped, concatenated. */
  function GetText(n: Node): string
    decreases n, 1
  {
    if n.Text? then Strip(n.content) else ForestText(n.children)
  }

  function ForestText(cs: seq<Node>): string
    decreases cs, 0
  {
    if cs == [] then "" else GetText(cs[0]) + ForestText(cs[1..])
  }

  /** The strings `get_text(strip=True)` joins: every string below `n`, in document order,
      stripped, with those that strip to nothing dropped. */
  function Strings(n: Node): seq<string>
    decreases n, 1
  {
    if n.Text? then (if Strip(n.content) == "" then [] else [Strip(n.content)])
    else ForestStrings(n.children)
  }

  function ForestStrings(cs: seq<Node>): seq<string>
    decreases cs, 0
  {
    if cs == [] then [] else Strings(cs[0]) + ForestStrings(cs[1..])
  }

  /** `get_text(strip=True)` is `''.join` of those strings, each non-empty and without
      whitespace at either end. */
  lemma {:induction false} GetTextStrings(n: Node)
    ensures GetText(n) == Concat(Strings(n))
    ensures forall k :: 0 <= k < |Strings(n)| ==> Strings(n)[k] != "" && NoOuterSpace(Strings(n)[k])
    decreases n, 1
  {
    if n.Text? {
      assert Concat([Strip(n.content)]) == Strip(n.content) + Concat([]);
    } else {
      ForestTextStrings(n.children);
    }
  }

  lemma {:induction false} ForestTextStrings(cs: seq<Node>)
    ensures ForestText(cs) == Concat(ForestStrings(cs))
    ensures forall k :: 0 <= k < |ForestStrings(cs)| ==>
      ForestStrings(cs)[k] != "" && NoOuterSpace(ForestStrings(cs)[k])
    decreases cs, 0
  {
    if cs != [] {
      GetTextStrings(cs[0]);
      ForestTextStrings(cs[1..]);
      ConcatAppend(Strings(cs[0]), ForestStrings(cs[1..]));
    }
  }

  /** The text `get_text(strip=True)` gives has no whitespace at either end. */
  lemma GetTextNoOuterSpace(n: Node)
    ensures NoOuterSpace(GetText(n))
  {
    GetTextStrings(n);
    ConcatNoOuterSpace(Strings(n));
  }
}
