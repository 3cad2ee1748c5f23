/** Kernel version strings as Kubernetes names (internal/kernel/kernel.go). */
module KernelNames {
  import opened Strings

  predicate IsLower(c: char) { 'a' <= c <= 'z' }
  predicate IsUpper(c: char) { 'A' <= c <= 'Z' }
  predicate IsDigit(c: char) { '0' <= c <= '9' }

  function NormalizeChar(c: char): char {
    if IsLower(c) || IsUpper(c) || IsDigit(c) || c == '-' || c == '.' || c == '_' then c else '_'
  }

  function DnsChar(c: char): char {
    var n := NormalizeChar(c);
    if IsUpper(n) then n - 'A' + 'a' else if n == '_' || n == '.' then '-' else n
  }

  function DnsChars(s: string): (r: string)
    ensures |r| == |s| && forall i :: 0 <= i < |s| ==> r[i] == DnsChar(s[i])
  {
    if s == "" then "" else [DnsChar(s[0])] + DnsChars(s[1..])
  }

  function TrimLeft(s: string, c: char): string {
    if s != "" && s[0] == c then TrimLeft(s[1..], c) else s
  }

  function TrimRight(s: string, c: char): string {
    if s != "" && s[|s| - 1] == c then TrimRight(s[..|s| - 1], c) else s
  }

  function DnsSafe(version: string): string {
    TrimRight(TrimLeft(DnsChars(version), '-'), '-')
  }

  predicate IsDnsChar(c: char) { IsLower(c) || IsDigit(c) || c == '-' }

  /** A string of name characters that neither starts nor ends with a dash. */
  predicate IsDnsName(s: string) {
    All(s, IsDnsChar) && (s != "" ==> s[0] != '-' && s[|s| - 1] != '-')
  }

  lemma {:induction false} TrimLeftKeeps(s: string, c: char)
    ensures |TrimLeft(s, c)| <= |s| && TrimLeft(s, c) == s[|s| - |TrimLeft(s, c)|..]
    ensures TrimLeft(s, c) != "" ==> TrimLeft(s, c)[0] != c
  {
    if s != "" && s[0] == c {
      TrimLeftKeeps(s[1..], c);
    }
  }

  lemma {:induction false} TrimRightKeeps(s: string, c: char)
    ensures |TrimRight(s, c)| <= |s| && TrimRight(s, c) == s[..|TrimRight(s, c)|]
    ensures TrimRight(s, c) != "" ==> TrimRight(s, c)[|TrimRight(s, c)| - 1] != c
  {
    if s != "" && s[|s| - 1] == c {
      TrimRightKeeps(s[..|s| - 1], c);
    }
  }

  /** Every kernel version becomes a DNS name, and DNS names stay as they are, so the key does not depend on how often it is normalised. */
  lemma DnsSafeIsCanonical(version: string)
    ensures IsDnsName(DnsSafe(version))
    ensures IsDnsName(version) ==> DnsSafe(version) == version
    ensures DnsSafe(DnsSafe(version)) == DnsSafe(version)
  {
    var chars := DnsChars(version);
    var left := TrimLeft(chars, '-');
    TrimLeftKeeps(chars, '-');
    TrimRightKeeps(left, '-');
    assert forall i :: 0 <= i < |chars| ==> IsDnsChar(chars[i]);
    DnsNameIsFixed(version);
    DnsNameIsFixed(DnsSafe(version));
  }

  /** A version that starts and ends with a letter or digit is kept character by character: upper case is lowered, all but letters and digits becomes a dash. */
  lemma DnsSafeIsCharwise(version: string)
    requires version != "" && IsAlnum(version[0]) && IsAlnum(version[|version| - 1])
    ensures var r := DnsSafe(version);
            |r| == |version| && forall i :: 0 <= i < |version| ==>
              r[i] == if 'A' <= version[i] <= 'Z' then version[i] - 'A' + 'a' else if IsAlnum(version[i]) then version[i] else '-'
  {
    var chars := DnsChars(version);
    assert chars[0] == DnsChar(version[0]) && chars[|chars| - 1] == DnsChar(version[|version| - 1]);
    assert TrimLeft(chars, '-') == chars;
    assert TrimRight(chars, '-') == chars;
  }

  predicate IsAlnum(c: char) { 'a' <= c <= 'z' || 'A' <= c <= 'Z' || '0' <= c <= '9' }

  lemma DnsNameIsFixed(s: string)
    ensures IsDnsName(s) ==> DnsSafe(s) == s
  {
    if IsDnsName(s) {
      forall i | 0 <= i < |s|
        ensures DnsChars(s)[i] == s[i]
      {
        assert s[i] in s;
        assert IsDnsChar(s[i]);
      }
      assert DnsChars(s) == s;
    }
  }
}
