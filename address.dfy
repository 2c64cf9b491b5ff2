/**
 * The street/city split of an entry's address: the text nodes under
 * `<address>` are stripped and the blank ones dropped; the street is the
 * first fragment and the city the last, but only when there are at least
 * two fragments.
 */
module AddressSplit {
  import opened Text

  /** The concatenation of a sequence of sequences. */
  function Flatten<T>(xss: seq<seq<T>>): seq<T> {
    if xss == [] then [] else xss[0] + Flatten(xss[1..])
  }

  lemma {:induction false} FlattenAppend<T>(a: seq<seq<T>>, b: seq<seq<T>>)
    ensures Flatten(a + b) == Flatten(a) + Flatten(b)
  {
    if a == [] {
      assert a + b == b;
    } else {
      assert (a + b)[1..] == a[1..] + b;
      FlattenAppend(a[1..], b);
    }
  }

  /** Flattening around the `i`-th sequence. */
  lemma FlattenAround<T>(xss: seq<seq<T>>, i: nat)
    requires i < |xss|
    ensures Flatten(xss) == Flatten(xss[..i]) + xss[i] + Flatten(xss[i + 1..])
  {
    var rest := xss[i..];
    assert xss[..i] + rest == xss;
    FlattenAppend(xss[..i], rest);
    assert rest[0] == xss[i] && rest[1..] == xss[i + 1..];
  }

  /** A flattening is empty exactly when every part is. */
  lemma {:induction false} FlattenEmpty<T>(xss: seq<seq<T>>)
    ensures Flatten(xss) == [] <==> forall i :: 0 <= i < |xss| ==> xss[i] == []
  {
    if xss != [] {
      FlattenEmpty(xss[1..]);
      assert forall i :: 1 <= i < |xss| ==> xss[i] == xss[1..][i - 1];
    }
  }

  /** `[f(x) for x in xs]`. */
  function MapSeq<A, B>(f: A -> B, xs: seq<A>): (ys: seq<B>)
    ensures |ys| == |xs| && forall i :: 0 <= i < |xs| ==> ys[i] == f(xs[i])
  {
    seq(|xs|, i requires 0 <= i < |xs| => f(xs[i]))
  }

  lemma MapSeqAppend<A, B>(f: A -> B, a: seq<A>, b: seq<A>)
    ensures MapSeq(f, a + b) == MapSeq(f, a) + MapSeq(f, b)
  {
    var ys, zs := MapSeq(f, a + b), MapSeq(f, a) + MapSeq(f, b);
    forall k | 0 <= k < |a| + |b| ensures ys[k] == zs[k] {
      if k < |a| {
        assert (a + b)[k] == a[k];
      } else {
        assert (a + b)[k] == b[k - |a|];
      }
    }
  }

  lemma MapSeqTake<A, B>(f: A -> B, xs: seq<A>, i: nat)
    requires i <= |xs|
    ensures MapSeq(f, xs)[..i] == MapSeq(f, xs[..i])
  {
    var ys, zs := MapSeq(f, xs)[..i], MapSeq(f, xs[..i]);
    forall k | 0 <= k < i ensures ys[k] == zs[k] {
      assert xs[..i][k] == xs[k];
    }
  }

  lemma MapSeqDrop<A, B>(f: A -> B, xs: seq<A>, i: nat)
    requires i <= |xs|
    ensures MapSeq(f, xs)[i..] == MapSeq(f, xs[i..])
  {
    var ys, zs := MapSeq(f, xs)[i..], MapSeq(f, xs[i..]);
    forall k | 0 <= k < |xs| - i ensures ys[k] == zs[k] {
      assert xs[i..][k] == xs[i + k];
    }
  }

  /** What one text contributes: its stripped self, or nothing when that is blank. */
  function Piece(t: string): seq<string> {
    var s := Strip(t);
    if s == [] then [] else [s]
  }

  lemma PieceOf(t: string)
    ensures Piece(t) == if AllSpace(t) then [] else [Strip(t)]
  {
    StripEmpty(t);
  }

  function Pieces(texts: seq<string>): seq<seq<string>> {
    MapSeq(Piece, texts)
  }

  /** `[t.strip() for t in texts if t.strip()]`. */
  function Fragments(texts: seq<string>): seq<string> {
    Flatten(Pieces(texts))
  }

  /** The fragments of texts in front of more texts: the first text's piece, then the rest's fragments. */
  lemma FragmentsCons(texts: seq<string>)
    requires texts != []
    ensures Fragments(texts) == Piece(texts[0]) + Fragments(texts[1..])
  {
    MapSeqDrop(Piece, texts, 1);
  }

  /** The fragments are at most as many as the texts, and each is non-empty and stripped. */
  lemma {:induction false} FragmentsStripped(texts: seq<string>)
    ensures var fs := Fragments(texts);
      && |fs| <= |texts|
      && forall i :: 0 <= i < |fs| ==> fs[i] != [] && !IsSpace(fs[i][0]) && !IsSpace(fs[i][|fs[i]| - 1])
  {
    if texts == [] {
      assert Pieces(texts) == [];
    } else {
      var head, rest := Piece(texts[0]), Fragments(texts[1..]);
      FragmentsCons(texts);
      FragmentsStripped(texts[1..]);
      var fs := Fragments(texts);
      forall i | 0 <= i < |fs| ensures fs[i] != [] && !IsSpace(fs[i][0]) && !IsSpace(fs[i][|fs[i]| - 1]) {
        if i < |head| {
          assert fs[i] == Strip(texts[0]);
        } else {
          assert fs[i] == rest[i - |head|];
        }
      }
    }
  }

  function Street(texts: seq<string>): string {
    var fs := Fragments(texts);
    if fs == [] then "" else fs[0]
  }

  function City(texts: seq<string>): string {
    var fs := Fragments(texts);
    if |fs| > 1 then fs[|fs| - 1] else ""
  }

  /** The fragments of a concatenation are the concatenated fragments. */
  lemma FragmentsAppend(a: seq<string>, b: seq<string>)
    ensures Fragments(a + b) == Fragments(a) + Fragments(b)
  {
    MapSeqAppend(Piece, a, b);
    FlattenAppend(Pieces(a), Pieces(b));
  }

  /** A blank text contributes no fragment, a non-blank one its stripped self. */
  lemma FragmentsOne(t: string)
    ensures Fragments([t]) == if AllSpace(t) then [] else [Strip(t)]
  {
    PieceOf(t);
    FlattenAround(Pieces([t]), 0);
    assert Pieces([t])[1..] == [];
  }

  /** There are no fragments exactly when every text is blank. */
  lemma FragmentsEmpty(texts: seq<string>)
    ensures Fragments(texts) == [] <==> forall i :: 0 <= i < |texts| ==> AllSpace(texts[i])
  {
    var ps := Pieces(texts);
    FlattenEmpty(ps);
    forall i | 0 <= i < |texts| ensures ps[i] == [] <==> AllSpace(texts[i]) {
      PieceOf(texts[i]);
    }
  }

  /** The fragments around the `i`-th text. */
  lemma FragmentsAround(texts: seq<string>, i: nat)
    requires i < |texts|
    ensures Fragments(texts) == Fragments(texts[..i]) + Piece(texts[i]) + Fragments(texts[i + 1..])
  {
    FlattenAround(Pieces(texts), i);
    MapSeqTake(Piece, texts, i);
    MapSeqDrop(Piece, texts, i + 1);
  }

  /** The street is the first non-blank text, stripped; `''` when every text is blank. */
  lemma StreetIsFirstNonBlank(texts: seq<string>, i: nat)
    requires i < |texts| && !AllSpace(texts[i]) && forall j :: 0 <= j < i ==> AllSpace(texts[j])
    ensures Street(texts) == Strip(texts[i])
  {
    var before := texts[..i];
    assert Fragments(before) == [] by {
      FragmentsEmpty(before);
    }
    assert Fragments(texts) == Fragments(before) + [Strip(texts[i])] + Fragments(texts[i + 1..]) by {
      FragmentsAround(texts, i);
      PieceOf(texts[i]);
    }
  }

  lemma StreetOfBlank(texts: seq<string>)
    requires forall i :: 0 <= i < |texts| ==> AllSpace(texts[i])
    ensures Street(texts) == "" && City(texts) == ""
  {
    FragmentsEmpty(texts);
  }

  /** When every text after the `i`-th is blank, the `i`-th text gives the last fragment. */
  lemma FragmentsEndAt(texts: seq<string>, i: nat)
    requires i < |texts| && !AllSpace(texts[i]) && forall j :: i < j < |texts| ==> AllSpace(texts[j])
    ensures Fragments(texts) == Fragments(texts[..i]) + [Strip(texts[i])]
  {
    var after := texts[i + 1..];
    assert Fragments(after) == [] by {
      assert forall j :: 0 <= j < |after| ==> after[j] == texts[i + 1 + j];
      FragmentsEmpty(after);
    }
    FragmentsAround(texts, i);
    PieceOf(texts[i]);
    assert Fragments(texts[..i]) + [Strip(texts[i])] + [] == Fragments(texts[..i]) + [Strip(texts[i])];
  }

  /**
   * The city is the last non-blank text, stripped, when an earlier text is
   * non-blank too; with a single non-blank text the city is `''`.
   */
  lemma CityIsLastNonBlank(texts: seq<string>, i: nat)
    requires i < |texts| && !AllSpace(texts[i]) && forall j :: i < j < |texts| ==> AllSpace(texts[j])
    ensures City(texts) == if exists j :: 0 <= j < i && !AllSpace(texts[j]) then Strip(texts[i]) else ""
  {
    var before := texts[..i];
    assert Fragments(before) != [] <==> exists j :: 0 <= j < i && !AllSpace(texts[j]) by {
      assert forall j :: 0 <= j < i ==> before[j] == texts[j];
      FragmentsEmpty(before);
    }
    FragmentsEndAt(texts, i);
  }

  /** With exactly one non-blank text, it is the street and the city is empty. */
  lemma SingleFragment(texts: seq<string>, i: nat)
    requires i < |texts| && !AllSpace(texts[i])
    requires forall j :: 0 <= j < |texts| && j != i ==> AllSpace(texts[j])
    ensures Street(texts) == Strip(texts[i]) && City(texts) == ""
  {
    StreetIsFirstNonBlank(texts, i);
    CityIsLastNonBlank(texts, i);
  }
}
