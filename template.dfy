/**
 * Filling a fixed text template with values, and reading the values back.
 * The notification body is such a template: literal HTML pieces with one
 * field value between each pair of consecutive pieces.
 */
module Template {
  import opened Wrappers

  /** Every piece after the first opens with a tag, so it starts with '<'. */
  predicate Delimited(pieces: seq<string>) {
    forall k :: 1 <= k < |pieces| ==> pieces[k] != [] && pieces[k][0] == '<'
  }

  /** A value that contains no '<', so no tag can start inside it. */
  predicate Plain(v: string) {
    forall i :: 0 <= i < |v| ==> v[i] != '<'
  }

  /** Every value is plain. */
  predicate AllPlain(values: seq<string>) {
    forall k :: 0 <= k < |values| ==> Plain(values[k])
  }

  /** pieces[0] + values[0] + pieces[1] + ... + values[n-1] + pieces[n]. */
  function Fill(pieces: seq<string>, values: seq<string>): (r: string)
    requires |pieces| == |values| + 1
    ensures pieces[0] <= r
    decreases |values|
  {
    if values == [] then pieces[0]
    else pieces[0] + values[0] + Fill(pieces[1..], values[1..])
  }

  /** The first position of `c` in `s`, or |s| when there is none. */
  function IndexOf(s: string, c: char): (k: nat)
    ensures k <= |s|
    ensures forall i :: 0 <= i < k ==> s[i] != c
    ensures k < |s| ==> s[k] == c
  {
    if s == [] || s[0] == c then 0 else 1 + IndexOf(s[1..], c)
  }

  /** Reads the values back out of a filled template: after each literal
      piece, the value runs up to the next '<'. */
  function Split(pieces: seq<string>, s: string): Option<seq<string>>
    requires |pieces| >= 1
    decreases |pieces|
  {
    if |pieces| == 1 then
      if s == pieces[0] then Some([]) else None
    else if pieces[0] <= s then
      var rest := s[|pieces[0]|..];
      var k := IndexOf(rest, '<');
      match Split(pieces[1..], rest[k..])
      case Some(vs) => Some([rest[..k]] + vs)
      case None => None
    else None
  }

  /** Values without '<' are read back exactly as they were filled in. */
  lemma {:induction false} SplitFill(pieces: seq<string>, values: seq<string>)
    requires |pieces| == |values| + 1 && Delimited(pieces)
    requires AllPlain(values)
    ensures Split(pieces, Fill(pieces, values)) == Some(values)
  {
    if values != [] {
      var tail := Fill(pieces[1..], values[1..]);
      var s := pieces[0] + values[0] + tail;
      var rest := s[|pieces[0]|..];
      assert rest == values[0] + tail;
      assert pieces[1] <= tail;
      assert Plain(values[0]);
      assert tail[0] == '<';
      assert rest[|values[0]|] == '<';
      var k := IndexOf(rest, '<');
      assert k == |values[0]|;
      assert rest[..k] == values[0];
      assert rest[k..] == tail;
      SplitFill(pieces[1..], values[1..]);
      assert [values[0]] + values[1..] == values;
    }
  }

  /** Whatever Split reads back fills the template to the original text. */
  lemma {:induction false} FillSplit(pieces: seq<string>, s: string, values: seq<string>)
    requires |pieces| >= 1 && Split(pieces, s) == Some(values)
    ensures |values| == |pieces| - 1 && Fill(pieces, values) == s
  {
    if |pieces| > 1 {
      var rest := s[|pieces[0]|..];
      var k := IndexOf(rest, '<');
      var vs := Split(pieces[1..], rest[k..]).value;
      FillSplit(pieces[1..], rest[k..], vs);
      assert values == [rest[..k]] + vs;
      assert values[1..] == vs;
      assert rest == rest[..k] + rest[k..];
      assert s == pieces[0] + rest;
    }
  }
}
