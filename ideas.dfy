/**
 * The pure part of scripts/youtube-ideas.py: the code-fence trim of the
 * model's answer and `decode_unicode_in_object`, which walks the parsed JSON
 * value and decodes escape sequences in every string it holds.
 *
 * The `unicode-escape` codec is library behaviour and stays opaque: a
 * `Codec` is a partial function on strings, `None` standing for the
 * exception the `try` catches.
 */
module Ideas {
  import opened Wrappers
  import opened Text

  /** The opening of a Markdown code fence. */
  const Fence := "```"

  /**
   * The answer text after `strip()` and, when it starts with a fence, with
   * its first and last lines dropped.
   */
  function TrimFences(text: string): string {
    var t := Strip(text);
    if StartsWith(t, Fence) then InnerLines(t) else t
  }

  /** Python's `'\n'.join(t.split('\n')[1:-1])`, which is empty when there are fewer than three lines. */
  function InnerLines(t: string): string {
    var lines := Split(t, '\n');
    Join(if |lines| >= 2 then lines[1..|lines| - 1] else [], '\n')
  }

  /** Text that does not start with a fence after stripping is only stripped. */
  lemma TrimUnfenced(text: string)
    requires !StartsWith(Strip(text), Fence)
    ensures TrimFences(text) == Strip(text)
    ensures TrimFences(text) == [] || (!IsSpace(TrimFences(text)[0]) && !IsSpace(TrimFences(text)[|TrimFences(text)| - 1]))
  {
  }

  /**
   * Fenced text of three lines or more is its first line (the one with the
   * opening fence), a newline, the result, a newline and its last line; the
   * result holds the lines in between, in order. With fewer lines the
   * result is empty.
   */
  lemma TrimFenced(text: string)
    requires StartsWith(Strip(text), Fence)
    ensures var t := Strip(text);
            var lines := Split(t, '\n');
            var r := TrimFences(text);
            && (|lines| <= 2 ==> r == "")
            && (|lines| >= 3 ==>
                  && StartsWith(lines[0], Fence)
                  && '\n' !in lines[0] && '\n' !in lines[|lines| - 1]
                  && t == lines[0] + "\n" + r + "\n" + lines[|lines| - 1]
                  && Split(r, '\n') == lines[1..|lines| - 1])
  {
    var t := Strip(text);
    assert TrimFences(text) == InnerLines(t);
    if |Split(t, '\n')| >= 3 {
      InnerLinesShape(t, Split(t, '\n'));
    }
  }

  /** The lines `InnerLines` keeps, and what it drops around them. */
  lemma InnerLinesShape(t: string, lines: seq<string>)
    requires StartsWith(t, Fence) && lines == Split(t, '\n') && |lines| >= 3
    ensures StartsWith(lines[0], Fence)
    ensures t == lines[0] + "\n" + InnerLines(t) + "\n" + lines[|lines| - 1]
    ensures Split(InnerLines(t), '\n') == lines[1..|lines| - 1]
  {
    var mid := lines[1..|lines| - 1];
    var last := lines[|lines| - 1];
    assert InnerLines(t) == Join(mid, '\n');
    assert lines[1..] == mid + [last];
    JoinSnoc(mid, last, '\n');
    assert t == lines[0] + "\n" + Join(mid, '\n') + "\n" + last;
    assert forall k :: 0 <= k < |mid| ==> '\n' !in mid[k] by {
      forall k | 0 <= k < |mid| ensures '\n' !in mid[k] {
        assert mid[k] == lines[k + 1];
      }
    }
    SplitJoin(mid, '\n');
    FenceOnFirstLine(t, lines[0], Join(mid, '\n') + "\n" + last);
  }

  /** A fence at the start of the text is on its first line. */
  lemma FenceOnFirstLine(t: string, first: string, rest: string)
    requires StartsWith(t, Fence) && t == first + "\n" + rest && '\n' !in first
    ensures StartsWith(first, Fence)
  {
    assert t[|first|] == '\n';
    assert forall k :: 0 <= k < |Fence| ==> t[k] != '\n';
    assert first[..|Fence|] == t[..|Fence|];
  }

  /** A value `json.loads` returns: an object keeps its keys in order. */
  datatype Json =
    | Null
    | Boolean(b: bool)
    | Number(n: real)
    | Str(s: string)
    | Array(items: seq<Json>)
    | Object(members: seq<(string, Json)>)

  /** `s.encode('utf-8').decode('unicode-escape')`: the decoded text, or `None` when it raises. */
  type Codec = string -> Option<string>

  /** The string branch: the decoded text, or the string as it was when decoding fails. */
  function DecodeString(codec: Codec, s: string): string {
    match codec(s)
    case Some(t) => t
    case None => s
  }

  /** The keys of an object, in order. */
  function Keys(members: seq<(string, Json)>): (ks: seq<string>)
    ensures |ks| == |members|
    ensures forall i :: 0 <= i < |members| ==> ks[i] == members[i].0
  {
    seq(|members|, i requires 0 <= i < |members| => members[i].0)
  }

  /**
   * `decode_unicode_in_object`: an object keeps its keys and has each value
   * decoded, a list keeps its length and has each item decoded in place, a
   * string is decoded (or kept when decoding fails) and any other value is
   * returned as it is.
   */
  function Decode(codec: Codec, v: Json): (r: Json)
    decreases v
  {
    match v
    case Object(ms) =>
      Object(seq(|ms|, i requires 0 <= i < |ms| => (ms[i].0, Decode(codec, ms[i].1))))
    case Array(xs) =>
      Array(seq(|xs|, i requires 0 <= i < |xs| => Decode(codec, xs[i])))
    case Str(s) => Str(DecodeString(codec, s))
    case _ => v
  }

  /** An object keeps its keys, in order, and each value is decoded. */
  lemma DecodeObject(codec: Codec, ms: seq<(string, Json)>)
    ensures var r := Decode(codec, Object(ms));
            && r.Object? && Keys(r.members) == Keys(ms)
            && forall i :: 0 <= i < |ms| ==> r.members[i].1 == Decode(codec, ms[i].1)
  {
  }

  /** A list keeps its length and each item is decoded in its place. */
  lemma DecodeArray(codec: Codec, xs: seq<Json>)
    ensures var r := Decode(codec, Array(xs));
            && r.Array? && |r.items| == |xs|
            && forall i :: 0 <= i < |xs| ==> r.items[i] == Decode(codec, xs[i])
  {
  }

  /** A string is decoded, or kept as it is when decoding fails; any other value that is not a container is kept. */
  lemma DecodeLeaf(codec: Codec, v: Json)
    requires !v.Object? && !v.Array?
    ensures v.Str? ==> Decode(codec, v) == Str(if codec(v.s).Some? then codec(v.s).value else v.s)
    ensures !v.Str? ==> Decode(codec, v) == v
  {
  }

  /** The value with every string emptied: what decoding must keep. */
  function Shape(v: Json): Json
    decreases v
  {
    match v
    case Object(ms) => Object(seq(|ms|, i requires 0 <= i < |ms| => (ms[i].0, Shape(ms[i].1))))
    case Array(xs) => Array(seq(|xs|, i requires 0 <= i < |xs| => Shape(xs[i])))
    case Str(_) => Str("")
    case _ => v
  }

  /** Decoding changes strings only: the keys, the lengths, the nesting and the other values stay. */
  lemma {:induction false} DecodeKeepsShape(codec: Codec, v: Json)
    ensures Shape(Decode(codec, v)) == Shape(v)
    decreases v
  {
    match v
    case Object(ms) =>
      var r := Decode(codec, v).members;
      forall i | 0 <= i < |ms| ensures Shape(r[i].1) == Shape(ms[i].1) {
        DecodeKeepsShape(codec, ms[i].1);
      }
      assert Keys(r) == Keys(ms);
      assert forall i :: 0 <= i < |ms| ==> r[i].0 == ms[i].0;
    case Array(xs) =>
      var r := Decode(codec, v).items;
      forall i | 0 <= i < |xs| ensures Shape(r[i]) == Shape(xs[i]) {
        DecodeKeepsShape(codec, xs[i]);
      }
    case _ =>
  }

  /** A codec that fails on every string, or gives every string back, leaves the value as it is. */
  lemma {:induction false} DecodeNothing(codec: Codec, v: Json)
    requires forall s :: codec(s).None? || codec(s) == Some(s)
    ensures Decode(codec, v) == v
    decreases v
  {
    match v
    case Object(ms) =>
      var r := Decode(codec, v).members;
      forall i | 0 <= i < |ms| ensures r[i] == ms[i] {
        DecodeNothing(codec, ms[i].1);
        assert r[i].0 == Keys(r)[i] == Keys(ms)[i];
      }
      assert r == ms;
    case Array(xs) =>
      var r := Decode(codec, v).items;
      forall i | 0 <= i < |xs| ensures r[i] == xs[i] {
        DecodeNothing(codec, xs[i]);
      }
      assert r == xs;
    case Str(s) =>
    case _ =>
  }

  /** `c` decodes as `c1` and then `c2` do, each keeping the string when it fails. */
  ghost predicate DecodesInTurn(c: Codec, c1: Codec, c2: Codec) {
    forall s :: c(s) == Some(DecodeString(c2, DecodeString(c1, s)))
  }

  /** Decoding twice is decoding once with both codecs in turn: the walk only maps the strings. */
  lemma {:induction false} DecodeTwice(c1: Codec, c2: Codec, c: Codec, v: Json)
    requires DecodesInTurn(c, c1, c2)
    ensures Decode(c2, Decode(c1, v)) == Decode(c, v)
    decreases v
  {
    match v
    case Object(ms) =>
      forall i | 0 <= i < |ms| ensures Decode(c2, Decode(c1, ms[i].1)) == Decode(c, ms[i].1) {
        DecodeTwice(c1, c2, c, ms[i].1);
      }
      MembersTwice(c1, c2, c, ms);
    case Array(xs) =>
      forall i | 0 <= i < |xs| ensures Decode(c2, Decode(c1, xs[i])) == Decode(c, xs[i]) {
        DecodeTwice(c1, c2, c, xs[i]);
      }
      ItemsTwice(c1, c2, c, xs);
    case _ =>
      LeafTwice(c1, c2, c, v);
  }

  /** The leaf step of `DecodeTwice`. */
  lemma LeafTwice(c1: Codec, c2: Codec, c: Codec, v: Json)
    requires DecodesInTurn(c, c1, c2) && !v.Object? && !v.Array?
    ensures Decode(c2, Decode(c1, v)) == Decode(c, v)
  {
    if v.Str? {
      var t1 := DecodeString(c1, v.s);
      assert Decode(c1, v) == Str(t1);
      assert Decode(c2, Str(t1)) == Str(DecodeString(c2, t1));
      assert DecodeString(c, v.s) == DecodeString(c2, t1);
      assert Decode(c, v) == Str(DecodeString(c, v.s));
    }
  }

  /** The object step of `DecodeTwice`, once it holds for every value. */
  lemma MembersTwice(c1: Codec, c2: Codec, c: Codec, ms: seq<(string, Json)>)
    requires forall i :: 0 <= i < |ms| ==> Decode(c2, Decode(c1, ms[i].1)) == Decode(c, ms[i].1)
    ensures Decode(c2, Decode(c1, Object(ms))) == Decode(c, Object(ms))
  {
    var once := Decode(c1, Object(ms));
    DecodeObject(c1, ms);
    DecodeObject(c2, once.members);
    DecodeObject(c, ms);
    assert once == Object(once.members);
    var twice := Decode(c2, Object(once.members));
    var both := Decode(c, Object(ms));
    SameMembers(twice.members, both.members);
  }

  /** Two member lists with the same keys and the same values are the same. */
  lemma SameMembers(a: seq<(string, Json)>, b: seq<(string, Json)>)
    requires Keys(a) == Keys(b)
    requires forall i :: 0 <= i < |a| ==> a[i].1 == b[i].1
    ensures a == b
  {
    forall i | 0 <= i < |a| ensures a[i] == b[i] {
      assert a[i].0 == Keys(a)[i] == Keys(b)[i] == b[i].0;
    }
  }

  /** The list step of `DecodeTwice`, once it holds for every item. */
  lemma ItemsTwice(c1: Codec, c2: Codec, c: Codec, xs: seq<Json>)
    requires forall i :: 0 <= i < |xs| ==> Decode(c2, Decode(c1, xs[i])) == Decode(c, xs[i])
    ensures Decode(c2, Decode(c1, Array(xs))) == Decode(c, Array(xs))
  {
    var twice := Decode(c2, Decode(c1, Array(xs))).items;
    var both := Decode(c, Array(xs)).items;
    assert twice == both;
  }
}
