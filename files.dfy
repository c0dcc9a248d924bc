/**
 * The lesson files of one section directory (scripts/generate-playgrounds.py):
 * each file is a name and its text. `main` reads them, and it appends text to
 * a file by opening it in append mode, which creates the file if it is missing.
 */
module Files {
  import opened Wrappers
  import opened Text

  /** One file of the directory: its name (without the directory) and its text. */
  datatype Lesson = Lesson(name: string, content: string)

  /** The names of the files, in listing order. */
  function Names(ls: seq<Lesson>): (ns: seq<string>)
    ensures |ns| == |ls|
    ensures forall i :: 0 <= i < |ls| ==> ns[i] == ls[i].name
  {
    if ls == [] then [] else [ls[0].name] + Names(ls[1..])
  }

  /** No two files share a name, as in a directory. */
  predicate DistinctNames(ls: seq<Lesson>) {
    forall i, j :: 0 <= i < j < |ls| ==> ls[i].name != ls[j].name
  }

  /** The text of the file called `name`, if there is one. */
  function Lookup(ls: seq<Lesson>, name: string): (c: Option<string>)
    ensures c.None? <==> name !in Names(ls)
    ensures c.Some? ==> exists i :: 0 <= i < |ls| && ls[i] == Lesson(name, c.value)
  {
    if ls == [] then None
    else if ls[0].name == name then Some(ls[0].content)
    else Lookup(ls[1..], name)
  }

  /** In a directory, the file found under a name is the one at that name's position. */
  lemma {:induction false} LookupAt(ls: seq<Lesson>, i: nat)
    requires DistinctNames(ls) && i < |ls|
    ensures Lookup(ls, ls[i].name) == Some(ls[i].content)
    decreases i
  {
    if i > 0 {
      assert ls[0].name != ls[i].name;
      assert DistinctNames(ls[1..]) by {
        forall a, b | 0 <= a < b < |ls| - 1 ensures ls[1..][a].name != ls[1..][b].name {
          assert ls[1..][a] == ls[a + 1] && ls[1..][b] == ls[b + 1];
        }
      }
      LookupAt(ls[1..], i - 1);
    }
  }

  /**
   * The directory after `open(name, 'a').write(text)`: the file called
   * `name` gets `text` at its end, or is created holding `text`.
   */
  function AppendText(ls: seq<Lesson>, name: string, text: string): (r: seq<Lesson>)
    ensures |r| == if name in Names(ls) then |ls| else |ls| + 1
  {
    if ls == [] then [Lesson(name, text)]
    else if ls[0].name == name then [Lesson(name, ls[0].content + text)] + ls[1..]
    else [ls[0]] + AppendText(ls[1..], name, text)
  }

  /** Appending changes only the file appended to, which ends up with the text added at its end. */
  lemma {:induction false} AppendTextLookup(ls: seq<Lesson>, name: string, text: string, other: string)
    ensures Lookup(AppendText(ls, name, text), name) ==
              Some(match Lookup(ls, name) case Some(c) => c + text case None => text)
    ensures other != name ==> Lookup(AppendText(ls, name, text), other) == Lookup(ls, other)
    decreases |ls|
  {
    if ls != [] && ls[0].name != name {
      AppendTextLookup(ls[1..], name, text, other);
    }
  }

  /** Appending to an existing file keeps the names of the directory. */
  lemma {:induction false} AppendTextNames(ls: seq<Lesson>, name: string, text: string)
    requires name in Names(ls)
    ensures Names(AppendText(ls, name, text)) == Names(ls)
    decreases |ls|
  {
    if ls[0].name != name {
      assert Names(ls)[1..] == Names(ls[1..]);
      AppendTextNames(ls[1..], name, text);
    }
  }

  /** A section directory whose files are changed in place. */
  class Pages {
    var lessons: seq<Lesson>

    constructor (lessons: seq<Lesson>)
      ensures this.lessons == lessons
    {
      this.lessons := lessons;
    }

    /** `read_text()` on the file called `name`, which the caller knows exists. */
    method Read(name: string) returns (content: string)
      requires name in Names(lessons)
      ensures Lookup(lessons, name) == Some(content)
    {
      content := Lookup(lessons, name).value;
    }

    /** `open(name, 'a').write(text)`. */
    method Append(name: string, text: string)
      modifies this
      ensures lessons == AppendText(old(lessons), name, text)
    {
      lessons := AppendText(lessons, name, text);
    }
  }
}
