/**
 `to_snake_case` of the derive macros' `util.rs`, over ASCII letters: each
 upper-case letter is lowered, with an `_` in front of it when the character
 before it is a lower-case letter. Every other character is copied.
 */
module SnakeCase {

  predicate IsUpper(c: char) {
    'A' <= c <= 'Z'
  }

  predicate IsLower(c: char) {
    'a' <= c <= 'z'
  }

  function ToLower(c: char): (d: char)
    requires IsUpper(c)
    ensures IsLower(d)
  {
    (c as int + 32) as char
  }

  /** The output for the character at `i`: the reference, one position at a time. */
  function Piece(s: string, i: nat): string
    requires i < |s|
  {
    if IsUpper(s[i]) then
      (if i > 0 && IsLower(s[i - 1]) then "_" else "") + [ToLower(s[i])]
    else [s[i]]
  }

  /** The pieces of all positions, in order. */
  function Snake(s: string): string {
    if s == [] then [] else Snake(s[..|s| - 1]) + Piece(s, |s| - 1)
  }

  /**
   `to_snake_case`: the loop with its `prev_is_lower` flag. An upper-case
   letter clears the flag, any other character sets it to whether it is a
   lower-case letter.
   */
  method ToSnakeCase(s: string) returns (result: string)
    ensures result == Snake(s)
  {
    result := [];
    var prevIsLower := false;
    var i := 0;
    while i < |s|
      invariant i <= |s|
      invariant prevIsLower <==> i > 0 && IsLower(s[i - 1])
      invariant result == Snake(s[..i])
    {
      var ch := s[i];
      ghost var before := result;
      SnakeStep(s, i);
      if IsUpper(ch) {
        if i > 0 && prevIsLower {
          result := result + "_";
        }
        result := result + [ToLower(ch)];
        prevIsLower := false;
      } else {
        result := result + [ch];
        prevIsLower := IsLower(ch);
      }
      assert result == before + Piece(s, i);
      i := i + 1;
    }
    assert s[..i] == s;
  }

  lemma SnakeStep(s: string, i: nat)
    requires i < |s|
    ensures Snake(s[..i + 1]) == Snake(s[..i]) + Piece(s, i)
  {
    var t := s[..i + 1];
    assert t[..|t| - 1] == s[..i];
    if i > 0 {
      assert t[i - 1] == s[i - 1];
    }
    assert Piece(t, i) == Piece(s, i);
  }

  predicate NoUpper(s: string) {
    forall j :: 0 <= j < |s| ==> !IsUpper(s[j])
  }

  /** The positions where a lower-case letter is followed by an upper-case one. */
  function Transitions(s: string): nat {
    if |s| < 2 then 0
    else Transitions(s[..|s| - 1]) + (if IsLower(s[|s| - 2]) && IsUpper(s[|s| - 1]) then 1 else 0)
  }

  /** The output has no upper-case letter, and one extra character per lower-to-upper transition. */
  lemma {:induction false} SnakeShape(s: string)
    ensures NoUpper(Snake(s))
    ensures |Snake(s)| == |s| + Transitions(s)
  {
    if s != [] {
      var init := s[..|s| - 1];
      SnakeShape(init);
      if |s| >= 2 {
        assert init[..|init| - 1] == s[..|s| - 2];
        assert init[|init| - 1] == s[|s| - 2];
      }
      assert Transitions(s) == Transitions(init) + (if |s| >= 2 && IsLower(s[|s| - 2]) && IsUpper(s[|s| - 1]) then 1 else 0);
    }
  }

  /** Text without upper-case letters comes back unchanged. */
  lemma {:induction false} SnakeOfNoUpper(s: string)
    requires NoUpper(s)
    ensures Snake(s) == s
  {
    if s != [] {
      var init := s[..|s| - 1];
      SnakeOfNoUpper(init);
      assert init + [s[|s| - 1]] == s;
    }
  }

  /** Converting twice is converting once. */
  lemma Idempotent(s: string)
    ensures Snake(Snake(s)) == Snake(s)
  {
    SnakeShape(s);
    SnakeOfNoUpper(Snake(s));
  }

  /** A lower-to-upper transition gets an underscore; a run of capitals does not. */
  lemma Examples()
    ensures Snake("CpuStats") == "cpu_stats"
    ensures Snake("HTTPServer") == "httpserver"
    ensures Snake("cpu_2Load") == "cpu_2load"
  {
    CamelExample();
    CapitalsExample();
    DigitExample();
  }

  lemma CamelExample()
    ensures Snake("CpuStats") == "cpu_stats"
  {
    assert "C"[..0] == "";
    assert Snake("C") == "c";
    assert "Cp"[..1] == "C";
    assert Snake("Cp") == "cp";
    assert "Cpu"[..2] == "Cp";
    assert Snake("Cpu") == "cpu";
    assert "CpuS"[..3] == "Cpu";
    assert Snake("CpuS") == "cpu_s";
    assert "CpuSt"[..4] == "CpuS";
    assert Snake("CpuSt") == "cpu_st";
    assert "CpuSta"[..5] == "CpuSt";
    assert Snake("CpuSta") == "cpu_sta";
    assert "CpuStat"[..6] == "CpuSta";
    assert Snake("CpuStat") == "cpu_stat";
    assert "CpuStats"[..7] == "CpuStat";
    assert Snake("CpuStats") == "cpu_stats";
  }

  lemma CapitalsExample()
    ensures Snake("HTTPServer") == "httpserver"
  {
    assert "H"[..0] == "";
    assert Snake("H") == "h";
    assert "HT"[..1] == "H";
    assert Snake("HT") == "ht";
    assert "HTT"[..2] == "HT";
    assert Snake("HTT") == "htt";
    assert "HTTP"[..3] == "HTT";
    assert Snake("HTTP") == "http";
    assert "HTTPS"[..4] == "HTTP";
    assert Snake("HTTPS") == "https";
    assert "HTTPSe"[..5] == "HTTPS";
    assert Snake("HTTPSe") == "httpse";
    assert "HTTPSer"[..6] == "HTTPSe";
    assert Snake("HTTPSer") == "httpser";
    assert "HTTPServ"[..7] == "HTTPSer";
    assert Snake("HTTPServ") == "httpserv";
    assert "HTTPServe"[..8] == "HTTPServ";
    assert Snake("HTTPServe") == "httpserve";
    assert "HTTPServer"[..9] == "HTTPServe";
    assert Snake("HTTPServer") == "httpserver";
  }

  lemma DigitExample()
    ensures Snake("cpu_2Load") == "cpu_2load"
  {
    assert "cpu_2Load"[..8] == "cpu_2Loa";
    assert "cpu_2Loa"[..7] == "cpu_2Lo";
    assert "cpu_2Lo"[..6] == "cpu_2L";
    assert "cpu_2L"[..5] == "cpu_2";
    assert "cpu_2"[..4] == "cpu_";
    assert "cpu_"[..3] == "cpu";
    assert "cpu"[..2] == "cp";
    assert "cp"[..1] == "c";
    assert "c"[..0] == "";
  }
}
