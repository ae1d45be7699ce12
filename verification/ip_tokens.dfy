/**
  The IP-address list of a probe payload (create_send_buffer in
  src/nat_test.c). The modem reports its addresses as one string separated
  by spaces; strtok splits it, and at most IP_STRINGS_COUNT addresses are
  kept. Further addresses are dropped with a log line, not reported as an
  error. strtok ends at the first NUL of the buffer.
 */
module IpTokens {
  import opened NatTypes

  const IP_STRINGS_COUNT: int := 10
  /** The strtok delimiter set: a single space. */
  const DELIM: char := ' '

  /** Length of the leading run of non-delimiter characters. */
  function RunLength(s: string): (n: nat)
    decreases |s|
    ensures n <= |s|
    ensures forall i :: 0 <= i < n ==> s[i] != DELIM
    ensures n < |s| ==> s[n] == DELIM
  {
    if |s| == 0 || s[0] == DELIM then 0 else 1 + RunLength(s[1..])
  }

  /** The tokens successive strtok calls return: maximal runs of non-spaces, in order. */
  function Tokens(s: string): (ts: seq<string>)
    decreases |s|
    ensures |ts| <= |s|
  {
    if |s| == 0 then []
    else if s[0] == DELIM then Tokens(s[1..])
    else
      var n := RunLength(s);
      [s[..n]] + Tokens(s[n..])
  }

  function Take<T>(xs: seq<T>, n: nat): (r: seq<T>)
    ensures |r| <= n && r <= xs
    ensures |xs| <= n ==> r == xs
    ensures |xs| > n ==> |r| == n
  {
    if |xs| <= n then xs else xs[..n]
  }

  // ---------------------------------------------------------------------
  // An independent description: split at every space, drop empty fields

  /** The fields between single spaces, empty ones included. */
  function Fields(s: string): (fs: seq<string>)
    decreases |s|
    ensures |fs| >= 1
  {
    if |s| == 0 then [""]
    else if s[0] == DELIM then [""] + Fields(s[1..])
    else var f := Fields(s[1..]); [[s[0]] + f[0]] + f[1..]
  }

  function NonEmpty(fs: seq<string>): seq<string>
    decreases |fs|
  {
    if |fs| == 0 then []
    else (if fs[0] == "" then [] else [fs[0]]) + NonEmpty(fs[1..])
  }

  lemma NonEmptyCons(f: string, fs: seq<string>)
    ensures NonEmpty([f] + fs) == (if f == "" then [] else [f]) + NonEmpty(fs)
  {
    assert ([f] + fs)[1..] == fs;
  }

  /** The first field is the leading run; the rest are the fields after the first space. */
  lemma {:induction false} FieldsOfRun(s: string)
    ensures var n := RunLength(s);
            Fields(s) == [s[..n]] + (if n == |s| then [] else Fields(s[n + 1..]))
    decreases |s|
  {
    if |s| > 0 && s[0] != DELIM {
      var n := RunLength(s);
      var t := s[1..];
      FieldsOfRun(t);
      assert RunLength(t) == n - 1;
      assert [s[0]] + t[..n - 1] == s[..n];
      if n < |s| {
        assert t[n - 1 + 1..] == s[n + 1..];
      }
    }
  }

  /** strtok's tokens are exactly the non-empty space-separated fields. */
  lemma {:induction false} TokensAreNonEmptyFields(s: string)
    ensures Tokens(s) == NonEmpty(Fields(s))
    decreases |s|
  {
    if |s| == 0 {
    } else if s[0] == DELIM {
      TokensAreNonEmptyFields(s[1..]);
      NonEmptyCons("", Fields(s[1..]));
    } else {
      var n := RunLength(s);
      FieldsOfRun(s);
      assert s[..n] != "" by {
        assert s[..n][0] == s[0];
      }
      if n == |s| {
        assert s[n..] == [];
        NonEmptyCons(s[..n], []);
      } else {
        assert s[n..][1..] == s[n + 1..];
        TokensAreNonEmptyFields(s[n + 1..]);
        NonEmptyCons(s[..n], Fields(s[n + 1..]));
      }
    }
  }

  /** Every token is a non-empty string without spaces. */
  lemma {:induction false} TokensWellFormed(s: string)
    ensures forall t :: t in Tokens(s) ==> |t| > 0 && DELIM !in t
    decreases |s|
  {
    if |s| > 0 {
      if s[0] == DELIM {
        TokensWellFormed(s[1..]);
      } else {
        var n := RunLength(s);
        assert s[..n][0] == s[0];
        TokensWellFormed(s[n..]);
      }
    }
  }

  lemma {:induction false} RunLengthExact(t: string, n: int)
    requires 0 <= n <= |t|
    requires forall k :: 0 <= k < n ==> t[k] != DELIM
    requires n == |t| || t[n] == DELIM
    ensures RunLength(t) == n
    decreases n
  {
    if n > 0 {
      RunLengthExact(t[1..], n - 1);
    }
  }

  /** A string without spaces is a single address. */
  lemma SingleToken(s: string)
    requires |s| > 0 && DELIM !in s
    ensures Tokens(s) == [s]
  {
    RunLengthExact(s, |s|);
    assert s[..|s|] == s && s[|s|..] == [];
  }

  lemma SkipDelimiter(s: string, i: int)
    requires 0 <= i < |s| && s[i] == DELIM
    ensures Tokens(s[i..]) == Tokens(s[i + 1..])
  {
    assert s[i..][1..] == s[i + 1..];
  }

  lemma TokenAt(s: string, i: int, j: int)
    requires 0 <= i < j <= |s|
    requires forall k :: i <= k < j ==> s[k] != DELIM
    requires j == |s| || s[j] == DELIM
    ensures Tokens(s[i..]) == [s[i..j]] + Tokens(s[j..])
  {
    var rest := s[i..];
    RunLengthExact(rest, j - i);
    assert rest[..j - i] == s[i..j];
    assert rest[j - i..] == s[j..];
  }

  /** strtok's skip over leading delimiters: the tokens from `k` on are those from `i` on. */
  method SkipDelimiters(s: string, i: int) returns (k: int)
    requires 0 <= i <= |s|
    ensures i <= k <= |s|
    ensures k == |s| || s[k] != DELIM
    ensures Tokens(s[i..]) == Tokens(s[k..])
  {
    k := i;
    while k < |s| && s[k] == DELIM
      invariant i <= k <= |s|
      invariant Tokens(s[i..]) == Tokens(s[k..])
    {
      SkipDelimiter(s, k);
      k := k + 1;
    }
  }

  /** strtok's scan to the end of a token: the first delimiter at or after `i`, or the end. */
  method TokenEnd(s: string, i: int) returns (j: int)
    requires 0 <= i <= |s|
    ensures i <= j <= |s|
    ensures forall k :: i <= k < j ==> s[k] != DELIM
    ensures j == |s| || s[j] == DELIM
  {
    j := i;
    while j < |s| && s[j] != DELIM
      invariant i <= j <= |s|
      invariant forall k :: i <= k < j ==> s[k] != DELIM
    {
      j := j + 1;
    }
  }

  /**
    The strtok loop of create_send_buffer over the address buffer: each
    token is stored only while fewer than IP_STRINGS_COUNT are held; the
    first one beyond stops the loop.
   */
  method SplitIpAddresses(buffer: string) returns (ips: seq<string>)
    ensures ips == Take(Tokens(CString(buffer)), IP_STRINGS_COUNT)
  {
    var ipString := CString(buffer);
    ips := [];
    var i := 0;
    while true
      invariant 0 <= i <= |ipString|
      invariant Tokens(ipString) == ips + Tokens(ipString[i..])
      invariant |ips| <= IP_STRINGS_COUNT
      decreases |ipString| - i
    {
      i := SkipDelimiters(ipString, i);
      if i == |ipString| {
        assert ipString[i..] == [];
        break;
      }
      var j := TokenEnd(ipString, i);
      TokenAt(ipString, i, j);
      if |ips| >= IP_STRINGS_COUNT {
        break;
      }
      ips := ips + [ipString[i..j]];
      i := j;
    }
  }

  /** Characters after the first NUL never reach the address list. */
  lemma {:induction false} NulEndsAddressList(before: string, after: string)
    requires '\0' !in before
    ensures CString(before + "\0" + after) == before
    decreases |before|
  {
    if |before| > 0 {
      assert (before + "\0" + after)[1..] == before[1..] + "\0" + after;
      NulEndsAddressList(before[1..], after);
    }
  }
}
