/**
 * The parsed markup, abstracted: for each class selector the crawler asks
 * for, the elements carrying it, in document order. An element has its text
 * content and, optionally, a `title` attribute.
 */
module Html {
  import opened Wrappers

  datatype Element = Element(text: string, title: Option<string>)

  datatype Document = Document(byClass: map<string, seq<Element>>)

  /** `doc.find_all(class_=cls)`: every match in document order, possibly none. */
  function FindAll(doc: Document, cls: string): seq<Element>
  {
    if cls in doc.byClass then doc.byClass[cls] else []
  }

  /** `doc.find(class_=cls)`: the first match, or `None` when nothing matches. */
  function Find(doc: Document, cls: string): Option<Element>
  {
    var all := FindAll(doc, cls);
    if |all| == 0 then None else Some(all[0])
  }

  /** The page with `more` elements of class `cls` appended at its end. */
  function WithMatches(doc: Document, cls: string, more: seq<Element>): (d: Document)
    ensures FindAll(d, cls) == FindAll(doc, cls) + more
    ensures forall c :: c != cls ==> FindAll(d, c) == FindAll(doc, c)
  {
    Document(doc.byClass[cls := FindAll(doc, cls) + more])
  }

  /** Later matches never change what `find` returns once a match exists, and
      the first one added is found when none existed; other classes are unaffected. */
  lemma FindStable(doc: Document, cls: string, more: seq<Element>, other: string)
    requires other != cls
    ensures Find(WithMatches(doc, cls, more), cls) ==
      if Find(doc, cls).Some? then Find(doc, cls) else if more == [] then None else Some(more[0])
    ensures Find(WithMatches(doc, cls, more), other) == Find(doc, other)
  {
    var d := WithMatches(doc, cls, more);
    if Find(doc, cls).Some? {
      assert FindAll(d, cls)[0] == FindAll(doc, cls)[0];
    } else {
      assert FindAll(d, cls) == more;
    }
  }
}
