/** The text of one line of the report, and how its parts can be read back. */
module EntryText {
  import opened DumpTree

  /** An entry is its prefix, type and suffix, a blank, its name, and " = " with its value;
      what is empty is left out. */
  lemma TextOfEntry(i: Info)
    ensures i.value != "" ==> i.ToText() == i.(value := "").ToText() + " = " + i.value
    ensures var typed := i.prefix + i.typeName + i.suffix;
            i.(value := "").ToText()
            == if i.name == "" then typed else if typed == "" then i.name else typed + " " + i.name
  {
  }

  function FirstEquals(s: string): (n: nat)
    ensures n <= |s|
  {
    if s == "" || s[0] == '=' then 0 else 1 + FirstEquals(s[1..])
  }

  function LastBlank(s: string): (n: nat)
    ensures n <= |s|
    ensures n < |s| ==> s[n] == ' '
  {
    if s == "" then 0
    else if s[|s| - 1] == ' ' then |s| - 1
    else
      var n := LastBlank(s[..|s| - 1]);
      if n == |s| - 1 then |s| else n
  }

  /** Type, name and value of a line. */
  function ReadEntry(s: string): (string, string, string) {
    var k := FirstEquals(s);
    var head := if 0 < k < |s| then s[..k - 1] else s;
    var value := if 0 < k && k + 2 <= |s| then s[k + 2..] else "";
    var b := LastBlank(head);
    if b < |head| then (head[..b], head[b + 1..], value) else ("", head, value)
  }

  lemma {:induction false} EqualsAfter(a: string, b: string)
    requires '=' !in a && (b == "" || b[0] == '=')
    ensures FirstEquals(a + b) == |a|
  {
    if a == "" {
      assert a + b == b;
    } else {
      assert (a + b)[1..] == a[1..] + b;
      EqualsAfter(a[1..], b);
    }
  }

  lemma {:induction false} BlankBefore(a: string, b: string)
    requires ' ' !in b
    ensures LastBlank(a + " " + b) == |a|
    decreases |b|
  {
    var s := a + " " + b;
    if b == "" {
      assert s == a + " ";
    } else {
      assert s[..|s| - 1] == a + " " + b[..|b| - 1];
      assert s[|s| - 1] == b[|b| - 1];
      BlankBefore(a, b[..|b| - 1]);
    }
  }

  lemma ReadWithoutValue(typed: string, name: string)
    requires typed != "" && '=' !in typed && '=' !in name && ' ' !in name
    ensures ReadEntry(typed + " " + name) == (typed, name, "")
  {
    var head := typed + " " + name;
    assert head + "" == head;
    EqualsAfter(head, "");
    BlankBefore(typed, name);
    assert head[..|typed|] == typed && head[|typed| + 1..] == name;
  }

  lemma ValueFollows(head: string, value: string)
    requires '=' !in head
    ensures var s := head + " = " + value;
            FirstEquals(s) == |head| + 1 && |s| == |head| + 3 + |value|
            && s[..|head|] == head && s[|head| + 3..] == value
  {
    var s := head + " = " + value;
    assert s == (head + " ") + ("= " + value);
    EqualsAfter(head + " ", "= " + value);
  }

  lemma ReadWithValue(typed: string, name: string, value: string)
    requires typed != "" && '=' !in typed && '=' !in name && ' ' !in name
    ensures ReadEntry(typed + " " + name + " = " + value) == (typed, name, value)
  {
    var head := typed + " " + name;
    ValueFollows(head, value);
    BlankBefore(typed, name);
    assert head[..|typed|] == typed && head[|typed| + 1..] == name;
  }

  /** A line with a type and a name can be read back when neither holds an equals sign and
      the name holds no blank. */
  lemma EntryReadsBack(i: Info)
    requires var typed := i.prefix + i.typeName + i.suffix;
             typed != "" && i.name != "" && '=' !in typed && '=' !in i.name && ' ' !in i.name
    ensures ReadEntry(i.ToText()) == (i.prefix + i.typeName + i.suffix, i.name, i.value)
  {
    var typed := i.prefix + i.typeName + i.suffix;
    if i.value == "" {
      ReadWithoutValue(typed, i.name);
    } else {
      ReadWithValue(typed, i.name, i.value);
    }
  }

  // ---------- Numbers ----------

  function NumberOf(s: string): int {
    if s == "" then 0 else 10 * NumberOf(s[..|s| - 1]) + (s[|s| - 1] as int - '0' as int)
  }

  /** Sizes and indices are written in decimal, without zeros in front. */
  lemma {:induction false} DigitsAreDecimal(n: nat)
    ensures NumberOf(Digits(n)) == n
    ensures forall c :: c in Digits(n) ==> '0' <= c <= '9'
    ensures Digits(n) != "" && (n > 0 ==> Digits(n)[0] != '0')
  {
    var last := "0123456789"[n % 10];
    assert last as int - '0' as int == n % 10;
    if n >= 10 {
      DigitsAreDecimal(n / 10);
      assert Digits(n)[..|Digits(n)| - 1] == Digits(n / 10);
    } else {
      assert Digits(n) == [last];
    }
  }
}
