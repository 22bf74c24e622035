/** The two de-duplicating append helpers of the repository: one over a
    space-separated string of e-mails, one over an array. */
module Helpers {
  import opened Common

  /** `concatIfStringNotInclude({str, newStr})`: appends `newStr` after a space
      unless `str` already contains it as a substring. */
  function ConcatIfStringNotInclude(str: string, newStr: string): (r: string)
    ensures Contains(str, newStr) ==> r == str
    ensures !Contains(str, newStr) ==> r == str + " " + newStr
    ensures Contains(r, newStr)
    ensures str <= r
  {
    if !Contains(str, newStr) then
      SuffixContained(str + " ", newStr);
      assert str + " " + newStr == (str + " ") + newStr;
      str + " " + newStr
    else
      str
  }

  /** Appending the same string twice is the same as appending it once. */
  lemma ConcatIdempotent(str: string, newStr: string)
    ensures ConcatIfStringNotInclude(ConcatIfStringNotInclude(str, newStr), newStr)
         == ConcatIfStringNotInclude(str, newStr)
  {
  }

  /** Every string the old one contained is still contained afterwards: the
      list of e-mails seen only grows. */
  lemma ConcatKeepsContained(str: string, newStr: string, seen: string)
    requires Contains(str, seen)
    ensures Contains(ConcatIfStringNotInclude(str, newStr), seen)
  {
    if !Contains(str, newStr) {
      ContainsExtends(str, seen, " " + newStr);
      assert str + " " + newStr == str + (" " + newStr);
    }
  }

  /** `pushIfNewElUnique(arr, element)`: a copy of `arr` with `element`
      appended unless it is already present. */
  function PushIfNewElUnique<T(==)>(arr: seq<T>, element: T): (r: seq<T>)
    ensures element in arr ==> r == arr
    ensures element !in arr ==> r == arr + [element] && |r| == |arr| + 1
    ensures element in r
    ensures arr <= r
  {
    if element !in arr then arr + [element] else arr
  }

  /** Pushing the same element twice is the same as pushing it once. */
  lemma PushIdempotent<T>(arr: seq<T>, element: T)
    ensures PushIfNewElUnique(PushIfNewElUnique(arr, element), element) == PushIfNewElUnique(arr, element)
  {
  }

  /** Pushing keeps an array free of duplicates. */
  lemma PushKeepsDistinct<T>(arr: seq<T>, element: T)
    requires forall i, j :: 0 <= i < j < |arr| ==> arr[i] != arr[j]
    ensures var r := PushIfNewElUnique(arr, element);
      forall i, j :: 0 <= i < j < |r| ==> r[i] != r[j]
  {
  }
}
