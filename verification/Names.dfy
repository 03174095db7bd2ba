/** Canonical local ref and peer names. */
module Names {

  const MAX_REF_NAME_BYTES := 64

  predicate Lower(c: char) { 'a' <= c <= 'z' }
  predicate Digit(c: char) { '0' <= c <= '9' }
  predicate Separator(c: char) { c == '.' || c == '_' || c == '-' }

  /** Starts with a letter; letters and digits, with single separators strictly between them. */
  ghost predicate ValidName(s: string) {
    && 0 < |s| <= MAX_REF_NAME_BYTES
    && Lower(s[0])
    && (forall i :: 0 <= i < |s| ==> Lower(s[i]) || Digit(s[i]) || Separator(s[i]))
    && (forall i, j :: 0 <= i && j == i + 1 && j < |s| ==> !(Separator(s[i]) && Separator(s[j])))
    && !Separator(s[|s| - 1])
  }

  type Name = s: string | ValidName(s) ghost witness "a"

  method ValidateName(s: string) returns (ok: bool)
    ensures ok <==> ValidName(s)
  {
    if s == "" || |s| > MAX_REF_NAME_BYTES || !Lower(s[0]) {
      return false;
    }
    var separator := false;
    for i := 1 to |s|
      invariant separator <==> Separator(s[i - 1])
      invariant forall k :: 0 <= k < i ==> Lower(s[k]) || Digit(s[k]) || Separator(s[k])
      invariant forall k, l :: 0 <= k && l == k + 1 && l < i ==> !(Separator(s[k]) && Separator(s[l]))
    {
      if Lower(s[i]) || Digit(s[i]) {
        separator := false;
      } else if Separator(s[i]) && !separator {
        separator := true;
      } else {
        return false;
      }
    }
    ok := !separator;
  }

  /** Bytewise lexicographic order of names. */
  predicate Before(a: string, b: string) {
    b != "" && (a == "" || a[0] < b[0] || (a[0] == b[0] && Before(a[1..], b[1..])))
  }

  lemma {:induction false} BeforeStrict(a: string, b: string, c: string)
    ensures !Before(a, a)
    ensures Before(a, b) && Before(b, c) ==> Before(a, c)
    decreases |a|
  {
    if a != "" {
      BeforeStrict(a[1..], if b != "" then b[1..] else "", if c != "" then c[1..] else "");
    }
  }
}
