/**
 * `extrairAnoDaEntrada` (extractor.js): the year of an entry is the last
 * `\b(19|20)\d{2}\b` token in it, read as a number.
 */
module Year {
  import opened Wrappers
  import opened Text

  /** `\b(19|20)\d{2}\b` matches at `i`. */
  predicate YearTokenAt(s: string, i: nat)
  {
    i + 4 <= |s| &&
    s[i] in "12" && (if s[i] == '1' then s[i + 1] == '9' else s[i + 1] == '0') &&
    IsDigit(s[i + 2]) && IsDigit(s[i + 3]) &&
    (i == 0 || !IsWordChar(s[i - 1])) &&
    (i + 4 == |s| || !IsWordChar(s[i + 4]))
  }

  function DigitValue(c: char): nat
    requires IsDigit(c)
  {
    c as int - '0' as int
  }

  /** `parseInt` of the four digits of a token. */
  function TokenValue(s: string, i: nat): (v: int)
    requires YearTokenAt(s, i)
    ensures 1900 <= v <= 2099
  {
    1000 * DigitValue(s[i]) + 100 * DigitValue(s[i + 1]) + 10 * DigitValue(s[i + 2]) + DigitValue(s[i + 3])
  }

  /** `YearTokenAt` as the search predicate of `FirstFrom`. */
  function IsToken(s: string): (p: nat -> bool)
    ensures forall k: nat :: p(k) == YearTokenAt(s, k)
  {
    (k: nat) => YearTokenAt(s, k)
  }

  /** Two tokens never overlap: inside a token there is no word boundary. */
  lemma NoOverlap(s: string, i: nat, k: nat)
    requires YearTokenAt(s, i) && i < k < i + 4
    ensures !YearTokenAt(s, k)
  {
  }

  /**
   * The positions `match(/.../g)` reports, searching from `lastIndex = i`: each search
   * resumes right after the previous four-character match.
   */
  function Scan(s: string, i: nat): (ms: seq<nat>)
    requires i <= |s|
    decreases |s| - i
  {
    match FirstFrom(i, |s|, IsToken(s))
    case None => []
    case Some(k) => [k] + Scan(s, k + 4)
  }

  /** The scan reports every token from `i` on, in increasing order, and nothing else. */
  lemma {:induction false} ScanComplete(s: string, i: nat)
    requires i <= |s|
    ensures forall k :: k in Scan(s, i) <==> i <= k && YearTokenAt(s, k)
    ensures forall a, b :: 0 <= a < b < |Scan(s, i)| ==> Scan(s, i)[a] < Scan(s, i)[b]
    decreases |s| - i
  {
    var f := FirstFrom(i, |s|, IsToken(s));
    if f.Some? {
      var m := f.value;
      ScanComplete(s, m + 4);
      var rest := Scan(s, m + 4);
      assert Scan(s, i) == [m] + rest;
      forall b | 0 <= b < |rest|
        ensures rest[b] > m
      {
        assert rest[b] in rest;
      }
      assert forall k: nat :: i <= k < m ==> !YearTokenAt(s, k);
      forall k: nat | m < k < m + 4
        ensures !YearTokenAt(s, k)
      {
        NoOverlap(s, m, k);
      }
    } else {
      assert Scan(s, i) == [];
      assert forall k: nat :: i <= k < |s| ==> !YearTokenAt(s, k);
    }
  }

  /** `extrairAnoDaEntrada`: the value of the last token, `null` when there is none. */
  function ExtractYear(s: string): (r: Option<int>)
    ensures r.None? <==> forall k :: 0 <= k < |s| ==> !YearTokenAt(s, k)
    ensures r.Some? ==> 1900 <= r.value <= 2099
    ensures r.Some? ==> exists k: nat :: YearTokenAt(s, k) && r.value == TokenValue(s, k) &&
                                    forall j :: k < j < |s| ==> !YearTokenAt(s, j)
  {
    var ms := Scan(s, 0);
    ScanComplete(s, 0);
    if ms == [] then
      None
    else
      var k := ms[|ms| - 1];
      assert k in ms;
      assert forall j :: k < j < |s| ==> !YearTokenAt(s, j) by {
        forall j | k < j < |s| && YearTokenAt(s, j)
          ensures false
        {
          assert j in ms;
          var a :| 0 <= a < |ms| && ms[a] == j;
        }
      }
      Some(TokenValue(s, k))
  }
}
