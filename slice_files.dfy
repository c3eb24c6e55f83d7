/**
  Selection of the slice files of a directory listing: the names that end
  in ".dcm", in listing order.
*/
module SliceFiles {

  const DicomSuffix: string := ".dcm"

  /** Python's str.endswith: the last |suffix| characters are suffix. */
  predicate EndsWith(name: string, suffix: string): (b: bool)
    ensures b <==> |suffix| <= |name| &&
                   forall i :: 0 <= i < |suffix| ==> name[|name| - |suffix| + i] == suffix[i]
  {
    |suffix| <= |name| && name[|name| - |suffix|..] == suffix
  }

  /** The names of the listing that end in ".dcm", keeping their order. */
  function SelectDicom(names: seq<string>): (files: seq<string>)
    ensures |files| <= |names|
    ensures forall x :: x in files <==> x in names && EndsWith(x, DicomSuffix)
  {
    if names == [] then []
    else (if EndsWith(names[0], DicomSuffix) then [names[0]] else []) + SelectDicom(names[1..])
  }

  /** Selection distributes over concatenation of listings: what is kept from
      an earlier part of the listing comes before what is kept from a later
      part, so the relative order of the listing is preserved. */
  lemma {:induction false} SelectConcat(a: seq<string>, b: seq<string>)
    ensures SelectDicom(a + b) == SelectDicom(a) + SelectDicom(b)
  {
    if a == [] {
      assert a + b == b;
    } else {
      assert (a + b)[1..] == a[1..] + b;
      SelectConcat(a[1..], b);
    }
  }

  /** A one-name listing keeps its name exactly when it ends in ".dcm". */
  lemma SelectSingle(x: string)
    ensures SelectDicom([x]) == if EndsWith(x, DicomSuffix) then [x] else []
  {
    assert [x][1..] == [];
  }

  /** The selection is empty exactly when no name ends in ".dcm". */
  lemma SelectEmpty(names: seq<string>)
    ensures SelectDicom(names) == [] <==> forall x :: x in names ==> !EndsWith(x, DicomSuffix)
  {
    if SelectDicom(names) != [] {
      assert SelectDicom(names)[0] in SelectDicom(names);
    }
  }
}
