/** The clean-up `generate_sql` applies to the SQL text an LLM returns:
    strip, delete every "```sql", delete every "```", strip again. */
module SqlCleanup {
  import opened Text

  const Fence := "```"
  const SqlFence := "```sql"

  /** `text.replace("```", "")`. */
  function Unfence(t: string): string {
    ReplaceAll(t, Fence, "")
  }

  /** Length of the leading run of backticks. */
  function Ticks(s: string): (n: nat)
    ensures n <= |s|
    decreases |s|
  {
    if |s| > 0 && s[0] == '`' then 1 + Ticks(s[1..]) else 0
  }

  /** A string that opens with a fence has at least three leading backticks, and conversely. */
  lemma TicksFence(t: string)
    ensures StartsWith(t, Fence) <==> Ticks(t) >= 3
    ensures StartsWith(t, Fence) ==> Ticks(t) == 3 + Ticks(t[3..])
  {
    if |t| >= 3 {
      assert StartsWith(t, Fence) <==> t[0] == '`' && t[1] == '`' && t[2] == '`' by {
        assert Fence[0] == '`' && Fence[1] == '`' && Fence[2] == '`';
        if t[0] == '`' && t[1] == '`' && t[2] == '`' { assert t[..3] == Fence; }
      }
      if t[0] == '`' {
        assert Ticks(t) == 1 + Ticks(t[1..]);
        assert t[1..][0] == t[1] && t[1..][1..] == t[2..];
        if t[1] == '`' {
          assert Ticks(t[1..]) == 1 + Ticks(t[2..]);
          assert t[2..][0] == t[2] && t[2..][1..] == t[3..];
          if t[2] == '`' {
            assert Ticks(t[2..]) == 1 + Ticks(t[3..]);
          }
        }
      }
    }
  }

  /** Removing fences left to right shortens the leading backtick run to its length modulo 3. */
  lemma {:induction false} UnfenceTicks(t: string)
    ensures Ticks(Unfence(t)) == Ticks(t) % 3
    decreases |t|
  {
    TicksFence(t);
    if |t| < 3 {
    } else if StartsWith(t, Fence) {
      UnfenceTicks(t[3..]);
      assert Unfence(t) == Unfence(t[3..]);
    } else {
      var u := Unfence(t[1..]);
      UnfenceTicks(t[1..]);
      assert Unfence(t) == [t[0]] + u;
      assert ([t[0]] + u)[1..] == u;
    }
  }

  /** After `replace("```", "")` no "```" is left: a backtick run of length n becomes one of length n % 3. */
  lemma {:induction false} UnfenceLeavesNoFence(t: string)
    ensures !Contains(Unfence(t), Fence)
    decreases |t|
  {
    if |t| < 3 {
      if Contains(t, Fence) { ContainsFits(t, Fence); }
    } else if StartsWith(t, Fence) {
      UnfenceLeavesNoFence(t[3..]);
      assert Unfence(t) == Unfence(t[3..]);
    } else {
      var u := Unfence(t[1..]);
      UnfenceLeavesNoFence(t[1..]);
      UnfenceTicks(t[1..]);
      TicksFence(t);
      assert Unfence(t) == [t[0]] + u;
      if Contains([t[0]] + u, Fence) {
        ContainsCons(t[0], u, Fence);
        TicksFence([t[0]] + u);
        assert false;
      }
    }
  }

  /** Lines 44-45 of `generate_sql`. The result holds no code fence and starts and ends
      with non-whitespace. */
  function CleanSql(content: string): (r: string)
    ensures !Contains(r, Fence)
    ensures Trimmed(r, PyWhitespace)
  {
    var a := Strip(content, PyWhitespace);
    var b := ReplaceAll(a, SqlFence, "");
    var c := Unfence(b);
    UnfenceLeavesNoFence(b);
    var r := Strip(c, PyWhitespace);
    assert !Contains(r, Fence) by {
      if Contains(r, Fence) { ContainsTrans(c, r, Fence); }
    }
    r
  }

  /** Cleaning cleaned text changes nothing. */
  lemma CleanIdempotent(s: string)
    ensures CleanSql(CleanSql(s)) == CleanSql(s)
  {
    CleanFixesClean(CleanSql(s));
  }

  /** Trimmed text without fences is left as it is. */
  lemma CleanFixesClean(t: string)
    requires Trimmed(t, PyWhitespace) && !Contains(t, Fence)
    ensures CleanSql(t) == t
  {
    TrimmedStripsToItself(t, PyWhitespace);
    assert Strip(t, PyWhitespace) == t;
    assert !Contains(t, SqlFence) by {
      if Contains(t, SqlFence) { ContainsPrefixOfPattern(t, SqlFence, Fence); }
    }
    ReplaceAbsent(t, SqlFence, "");
    assert ReplaceAll(t, SqlFence, "") == t;
    ReplaceAbsent(t, Fence, "");
    assert Unfence(t) == t;
  }

  /** Text without backticks is only stripped. */
  lemma CleanPlain(s: string)
    requires '`' !in s
    ensures CleanSql(s) == Strip(s, PyWhitespace)
  {
    var a := Strip(s, PyWhitespace);
    StripFixesTrimmed(s, PyWhitespace);
    NoTickNoPattern(s, a, SqlFence);
    NoTickNoPattern(s, a, Fence);
    ReplaceAbsent(a, SqlFence, "");
    ReplaceAbsent(a, Fence, "");
  }

  /** A string without backticks contains no fence, nor does anything occurring in it. */
  lemma NoTickNoPattern(s: string, a: string, p: string)
    requires '`' !in s && Contains(s, a)
    requires |p| > 0 && p[0] == '`'
    ensures !Contains(a, p)
  {
    if Contains(a, p) {
      ContainsTrans(s, a, p);
      ContainsIffOccurs(s, p);
    }
  }

  /** A closing fence after backtick-free text is deleted and nothing else is. */
  lemma {:induction false} UnfenceClosing(body: string)
    requires '`' !in body
    ensures Unfence(body + Fence) == body
    decreases |body|
  {
    if body == [] {
      assert body + Fence == Fence;
      assert Fence[3..] == [];
    } else {
      assert (body + Fence)[0] == body[0] && body[0] in body;
      assert !StartsWith(body + Fence, Fence);
      assert (body + Fence)[1..] == body[1..] + Fence;
      UnfenceClosing(body[1..]);
      assert [body[0]] + body[1..] == body;
    }
  }

  /** A fenced block "```sql" + body + "```" cleans to the stripped body: the `sql` tag
      is removed before the bare fences, so it does not survive. */
  lemma CleanFencedBlock(body: string)
    requires '`' !in body
    ensures CleanSql(SqlFence + body + Fence) == Strip(body, PyWhitespace)
  {
    var s := SqlFence + body + Fence;
    FencedIsTrimmed(body);
    StripFixesTrimmed(s, PyWhitespace);
    DropSqlTag(body);
    UnfenceClosing(body);
  }

  lemma FencedIsTrimmed(body: string)
    ensures Trimmed(SqlFence + body + Fence, PyWhitespace)
  {
    var s := SqlFence + body + Fence;
    assert s[0] == '`' && s[|s| - 1] == '`';
  }

  /** Only the opening "```sql" of a fenced block is taken by the first replacement. */
  lemma DropSqlTag(body: string)
    requires '`' !in body
    ensures ReplaceAll(SqlFence + body + Fence, SqlFence, "") == body + Fence
  {
    var s := SqlFence + body + Fence;
    var rest := body + Fence;
    assert StartsWith(s, SqlFence);
    assert s[|SqlFence|..] == rest;
    assert !Contains(rest, SqlFence) by {
      forall i | 0 <= i && i + |SqlFence| <= |rest|
        ensures !OccursAt(rest, SqlFence, i)
      {
        assert rest[i] == body[i] && body[i] in body;
        assert rest[i..i + |SqlFence|][0] != SqlFence[0];
      }
      ContainsIffOccurs(rest, SqlFence);
    }
    ReplaceAbsent(rest, SqlFence, "");
  }

  /** The fenced one-line query "```sql\nSELECT 1\n```" becomes "SELECT 1". */
  lemma CleanExample()
    ensures CleanSql("```sql\nSELECT 1\n```") == "SELECT 1"
  {
    var body := "\nSELECT 1\n";
    assert "```sql\nSELECT 1\n```" == SqlFence + body + Fence;
    CleanFencedBlock(body);
    StripExample();
  }

  lemma StripExample()
    ensures Strip("\nSELECT 1\n", PyWhitespace) == "SELECT 1"
  {
    TrimStartExample();
    TrimEndExample();
  }

  lemma TrimStartExample()
    ensures TrimStart("\nSELECT 1\n", PyWhitespace) == "SELECT 1\n"
  {
    var s := "\nSELECT 1\n";
    assert PyWhitespace(s[0]) && s[1..] == "SELECT 1\n";
    assert !PyWhitespace('S');
  }

  lemma TrimEndExample()
    ensures TrimEnd("SELECT 1\n", PyWhitespace) == "SELECT 1"
  {
    var s := "SELECT 1\n";
    assert PyWhitespace(s[|s| - 1]) && s[..|s| - 1] == "SELECT 1";
    assert !PyWhitespace('1');
  }
}
