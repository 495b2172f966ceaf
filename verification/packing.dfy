/** The packing label shown beside a result: the first space-separated word of
    the most common packing, `Packing.split(' ')[0]`. */
module PackingLabel {

  /** `s.split(sep)` for a one-character separator: the pieces between
      separators, in order; an empty string gives one empty piece. */
  function Split(s: string, sep: char): (r: seq<string>)
    ensures |r| >= 1
    ensures forall i :: 0 <= i < |r| ==> sep !in r[i]
  {
    if |s| == 0 then [""]
    else
      var rest := Split(s[1..], sep);
      if s[0] == sep then [""] + rest
      else [[s[0]] + rest[0]] + rest[1..]
  }

  /** `pieces.join(sep)`, the inverse of Split. */
  function Join(pieces: seq<string>, sep: char): string
    requires |pieces| >= 1
  {
    if |pieces| == 1 then pieces[0]
    else pieces[0] + [sep] + Join(pieces[1..], sep)
  }

  /** Joining the pieces back with the separator restores the string. */
  lemma {:induction false} SplitJoin(s: string, sep: char)
    ensures Join(Split(s, sep), sep) == s
  {
    if |s| > 0 {
      var rest := Split(s[1..], sep);
      SplitJoin(s[1..], sep);
      if s[0] == sep {
        assert ([""] + rest)[1..] == rest;
        assert s == [s[0]] + s[1..];
      } else {
        var r := [[s[0]] + rest[0]] + rest[1..];
        if |rest| == 1 {
          assert s == [s[0]] + s[1..];
        } else {
          assert r[1..] == rest[1..];
          assert s == [s[0]] + s[1..];
        }
      }
    }
  }

  /** The first piece of a split is the prefix before the first separator. */
  lemma {:induction false} SplitFirst(s: string, sep: char)
    ensures Split(s, sep)[0] <= s
    ensures |Split(s, sep)[0]| == |s| || s[|Split(s, sep)[0]|] == sep
  {
    if |s| > 0 && s[0] != sep {
      SplitFirst(s[1..], sep);
      assert s == [s[0]] + s[1..];
    }
  }

  /** The label: `Packing.split(' ')[0]`. It is the longest prefix without a
      space, so it stops at the first space or at the end of the string. */
  function FirstWord(packing: string): (r: string)
    ensures r <= packing
    ensures ' ' !in r
    ensures |r| == |packing| || packing[|r|] == ' '
    ensures ' ' !in packing ==> r == packing
  {
    SplitFirst(packing, ' ');
    Split(packing, ' ')[0]
  }

  /** The three properties of FirstWord determine it: any space-free prefix
      that ends at a space or at the end of the string is the label. */
  lemma FirstWordUnique(packing: string, w: string)
    requires w <= packing && ' ' !in w
    requires |w| == |packing| || packing[|w|] == ' '
    ensures w == FirstWord(packing)
  {
  }
}
