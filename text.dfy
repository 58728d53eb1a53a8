/** String helpers standing in for the JavaScript built-ins the utilities use. */
module Text {

  /** `String.prototype.toLowerCase` restricted to ASCII: 'A'..'Z' map to 'a'..'z'. */
  function LowerChar(c: char): char
  {
    if 'A' <= c <= 'Z' then (c as int + 32) as char else c
  }

  predicate IsUpper(c: char)
  {
    'A' <= c <= 'Z'
  }

  function ToLower(s: string): (r: string)
    ensures |r| == |s|
    ensures forall i :: 0 <= i < |s| ==> r[i] == LowerChar(s[i])
  {
    if s == [] then [] else [LowerChar(s[0])] + ToLower(s[1..])
  }

  predicate HasUpper(s: string)
  {
    exists i :: 0 <= i < |s| && IsUpper(s[i])
  }

  /** Lower-casing leaves no upper-case letter behind. */
  lemma {:induction false} LowerHasNoUpper(s: string)
    ensures !HasUpper(ToLower(s))
  {
    var r := ToLower(s);
    forall i | 0 <= i < |r| ensures !IsUpper(r[i]) {
      assert r[i] == LowerChar(s[i]);
    }
  }

  /** `'\t'.repeat(n)` for a count that is not negative. */
  function Tabs(n: nat): (r: string)
    ensures |r| == n
    ensures forall i :: 0 <= i < n ==> r[i] == '\t'
  {
    seq(n, _ => '\t')
  }

  lemma {:induction false} TabsSmall()
    ensures Tabs(0) == "" && Tabs(1) == "\t"
  {
    assert |Tabs(1)| == 1 && Tabs(1)[0] == '\t';
  }

  /** A string between double quotes, as the template literal `"${x}"` writes it. */
  function Quoted(s: string): string
  {
    "\"" + s + "\""
  }
}
