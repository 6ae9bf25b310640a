/**
  The head revision of a document set (packages/mcp/src/json-first-storage.ts): a hash over `path`, newline, `content`
  and a separator line, in path order.
 */
module HeadRevision {
  import opened Wrappers
  import Sorting

  datatype Document = Document(path: string, content: string)

  const SEPARATOR := "\n---\n"

  function HeadText(documents: seq<Document>): string {
    if documents == [] then ""
    else documents[0].path + "\n" + documents[0].content + SEPARATOR + HeadText(documents[1..])
  }

  /** How the source hashes a set: in path order, whatever order it comes in. */
  function HeadOf(hash: string -> string, leq: (string, string) -> bool, documents: seq<Document>): string {
    hash(HeadText(Sorting.Sort((d: Document) => d.path, leq, documents)))
  }

  // ---------- Reading the text back ----------

  predicate SeparatorAt(text: string, k: nat) {
    k + 5 <= |text| && text[k..k + 5] == SEPARATOR
  }

  function FirstSeparator(text: string, k: nat): (found: Option<nat>)
    requires k <= |text|
    ensures found.Some? ==> k <= found.value && SeparatorAt(text, found.value)
    ensures found.Some? ==> forall j :: k <= j < found.value ==> !SeparatorAt(text, j)
    ensures found.None? ==> forall j :: k <= j ==> !SeparatorAt(text, j)
    decreases |text| - k
  {
    if SeparatorAt(text, k) then Some(k)
    else if k == |text| then None
    else FirstSeparator(text, k + 1)
  }

  function FirstNewline(text: string, k: nat): (found: Option<nat>)
    requires k <= |text|
    ensures found.Some? ==> k <= found.value < |text| && text[found.value] == '\n'
    ensures found.Some? ==> forall j :: k <= j < found.value ==> text[j] != '\n'
    ensures found.None? ==> forall j :: k <= j < |text| ==> text[j] != '\n'
    decreases |text| - k
  {
    if k == |text| then None
    else if text[k] == '\n' then Some(k)
    else FirstNewline(text, k + 1)
  }

  /** Reads documents back by the first newline and the first separator after it. */
  function Decode(text: string): Option<seq<Document>>
    decreases |text|
  {
    if text == "" then Some([])
    else
      match FirstNewline(text, 0)
      case None => None
      case Some(i) =>
        var tail := text[i + 1..];
        match FirstSeparator(tail, 0)
        case None => None
        case Some(k) =>
          match Decode(tail[k + 5..])
          case None => None
          case Some(rest) => Some([Document(text[..i], tail[..k])] + rest)
  }

  /** No newline in the path, and no line of three dashes in the content; JSON text never has such a line. */
  predicate IsClean(d: Document) {
    '\n' !in d.path && FirstSeparator(d.content + SEPARATOR, 0) == Some(|d.content|)
  }

  /** What follows a content cannot bring its first separator forward. */
  lemma FirstSeparatorIsLocal(content: string, rest: string)
    ensures FirstSeparator(content + SEPARATOR + rest, 0) == FirstSeparator(content + SEPARATOR, 0)
    ensures FirstSeparator(content + SEPARATOR, 0).Some? && FirstSeparator(content + SEPARATOR, 0).value <= |content|
  {
    var near, far := content + SEPARATOR, content + SEPARATOR + rest;
    forall j: nat | j <= |content| ensures SeparatorAt(near, j) <==> SeparatorAt(far, j) {
      assert far[j..j + 5] == near[j..j + 5];
    }
    assert near[|content|..|content| + 5] == SEPARATOR;
    assert SeparatorAt(near, |content|) && SeparatorAt(far, |content|);
  }

  lemma FirstNewlineEndsPath(path: string, rest: string)
    ensures FirstNewline(path + "\n" + rest, 0).Some? && FirstNewline(path + "\n" + rest, 0).value <= |path|
    ensures FirstNewline(path + "\n" + rest, 0) == Some(|path|) <==> '\n' !in path
  {
    var text := path + "\n" + rest;
    assert text[|path|] == '\n';
    assert forall j :: 0 <= j < |path| ==> text[j] == path[j];
  }

  /** One step of the decoder: it splits off what lies before the first newline and the first separator after it. */
  lemma {:induction false} DecodeSplits(text: string, i: nat, k: nat)
    requires i < |text| && FirstNewline(text, 0) == Some(i)
    requires k + 5 <= |text| - (i + 1) && FirstSeparator(text[i + 1..], 0) == Some(k)
    ensures var rest := Decode(text[i + 1..][k + 5..]);
            Decode(text) == if rest.None? then None else Some([Document(text[..i], text[i + 1..][..k])] + rest.value)
  {
    hide FirstNewline, FirstSeparator;
  }

  /** On the text of a document set, one step gives the first document back exactly when it is clean. */
  lemma {:induction false} DecodeStep(d: Document, rest: string, text: string)
    requires text == d.path + "\n" + d.content + SEPARATOR + rest
    ensures IsClean(d) ==> Decode(text) == if Decode(rest).Some? then Some([d] + Decode(rest).value) else None
    ensures !IsClean(d) && Decode(text).Some? ==> Decode(text).value != [] && Decode(text).value[0] != d
  {
    hide Decode, FirstNewline, FirstSeparator;
    var after := d.content + SEPARATOR + rest;
    assert text == d.path + "\n" + after;
    FirstNewlineEndsPath(d.path, after);
    FirstSeparatorIsLocal(d.content, rest);
    var i := FirstNewline(text, 0).value;
    if i == |d.path| {
      assert text[i + 1..] == after && text[..i] == d.path;
      var k := FirstSeparator(after, 0).value;
      DecodeSplits(text, i, k);
      if k == |d.content| {
        assert after[..k] == d.content && after[k + 5..] == rest;
      } else {
        assert |after[..k]| != |d.content|;
      }
    } else {
      ShortPathDiffers(text, i);
    }
  }

  lemma {:induction false} ShortPathDiffers(text: string, i: nat)
    requires i < |text| && FirstNewline(text, 0) == Some(i)
    ensures Decode(text).Some? ==> Decode(text).value != [] && Decode(text).value[0].path == text[..i]
  {
    hide FirstNewline, FirstSeparator;
  }

  /** The hashed text can be read back exactly when every document is clean. */
  lemma {:induction false} HeadTextReadsBackExactly(documents: seq<Document>)
    ensures Decode(HeadText(documents)) == Some(documents) <==> forall d <- documents :: IsClean(d)
    decreases |documents|
  {
    hide IsClean, FirstNewline, FirstSeparator;
    if documents != [] {
      var d, rest := documents[0], documents[1..];
      HeadTextReadsBackExactly(rest);
      DecodeStep(d, HeadText(rest), HeadText(documents));
      assert documents == [d] + rest;
      if IsClean(d) {
        assert Decode(HeadText(rest)).Some? ==>
            ([d] + Decode(HeadText(rest)).value == documents <==> Decode(HeadText(rest)).value == rest) by {
          if Decode(HeadText(rest)).Some? { PrependIsInjective(d, Decode(HeadText(rest)).value, rest); }
        }
        assert (forall e <- documents :: IsClean(e)) <==> forall e <- rest :: IsClean(e);
      } else {
        assert d in documents;
      }
    }
  }

  lemma PrependIsInjective(d: Document, a: seq<Document>, b: seq<Document>)
    ensures [d] + a == [d] + b <==> a == b
  {
    assert ([d] + a)[1..] == a && ([d] + b)[1..] == b;
  }

  ghost predicate IsCleanSet(documents: seq<Document>) {
    && Sorting.DistinctBy((d: Document) => d.path, documents)
    && forall d <- documents :: IsClean(d)
  }

  ghost predicate Injective(hash: string -> string) {
    forall a, b :: hash(a) == hash(b) ==> a == b
  }

  /** Two clean sets have the same head exactly when they hold the same documents. */
  lemma HeadNamesOneSet(hash: string -> string, leq: (string, string) -> bool, a: seq<Document>, b: seq<Document>)
    requires Injective(hash) && Sorting.TotalOrder(leq) && IsCleanSet(a) && IsCleanSet(b)
    ensures HeadOf(hash, leq, a) == HeadOf(hash, leq, b) <==> forall d :: d in a <==> d in b
  {
    hide IsClean, Decode, HeadText, Sorting.Sort;
    var byPath := (d: Document) => d.path;
    var s, t := Sorting.Sort(byPath, leq, a), Sorting.Sort(byPath, leq, b);
    Sorting.SameMembers(s, a);
    Sorting.SameMembers(t, b);
    HeadTextReadsBackExactly(s);
    HeadTextReadsBackExactly(t);
    if forall d :: d in a <==> d in b {
      Sorting.SortSorts(byPath, leq, a);
      Sorting.SortSorts(byPath, leq, b);
      Sorting.SortKeepsDistinct(byPath, leq, a);
      Sorting.SortKeepsDistinct(byPath, leq, b);
      Sorting.SortedIsUnique(byPath, leq, s, t);
    }
  }

  /** With a line of three dashes in a content, two different sets are hashed from one text. */
  lemma DashLinesCollide()
    ensures HeadText([Document("a", "x\n---\nb\ny")]) == HeadText([Document("a", "x"), Document("b", "y")])
  {
    var one, two := [Document("a", "x\n---\nb\ny")], [Document("a", "x"), Document("b", "y")];
    assert one[1..] == [] && two[1..] == [Document("b", "y")] && two[1..][1..] == [];
  }
}
