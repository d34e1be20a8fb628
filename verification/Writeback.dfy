/** Writing a detected byte order back into the text of a definition (rxcapturemanagerthread.cpp). */
module Writeback {
  import opened Pdef
  import opened TextSearch

  function OrderName(order: Endian): string { if order.Big? then "big" else "little" }

  const REACH: nat := 20
  const VALUE_REACH: nat := 50

  /** Where the value of an existing setting starts and ends: after the '=' and at the ';'. */
  function SettingAt(text: string, endian: nat): (r: Option<(nat, nat)>)
    ensures r.Some? ==> endian < r.value.0 <= r.value.1 < |text|
    ensures r.Some? ==> text[r.value.0 - 1] == '=' && text[r.value.1] == ';'
  {
    FoundChar(text, '=', endian);
    var eq := Find(text, "=", endian);
    if eq.None? || eq.value > endian + REACH then None else
    FoundChar(text, ';', eq.value);
    var semi := Find(text, ";", eq.value);
    if semi.None? || semi.value > eq.value + VALUE_REACH then None else
    Some((eq.value + 1, semi.value))
  }

  /** Where a new setting is inserted: at the start of the line after "@protocol ... {", or after the brace. */
  function InsertAt(text: string): (r: Option<nat>)
    ensures r.Some? ==> 0 < r.value <= |text|
    ensures r.Some? ==> text[r.value - 1] == '\n' || (text[r.value - 1] == '{' && '\n' !in text[r.value..])
  {
    var protocol := Find(text, "@protocol", 0);
    if protocol.None? then None else
    FoundChar(text, '{', protocol.value);
    var brace := Find(text, "{", protocol.value);
    if brace.None? then None else
    FoundChar(text, '\n', brace.value);
    var newline := Find(text, "\n", brace.value);
    if newline.None? then
      assert forall i: nat :: brace.value <= i ==> !OccursAt(text, "\n", i);
      assert forall i: nat :: brace.value < i < |text| ==> text[i] != '\n' by {
        forall i: nat | brace.value < i < |text|
          ensures text[i] != '\n'
        {
          OccursChar(text, '\n', i);
        }
      }
      Some(brace.value + 1)
    else Some(newline.value + 1)
  }

  function Replaced(text: string, start: nat, end: nat, order: Endian): string
    requires start <= end <= |text|
  {
    text[..start] + " " + OrderName(order) + text[end..]
  }

  function Inserted(text: string, at: nat, order: Endian): string
    requires at <= |text|
  {
    text[..at] + "    endian = " + OrderName(order) + ";\n" + text[at..]
  }

  /** The text splicing of writeback_endian_to_file. */
  function Rewrite(text: string, order: Endian): Option<string> {
    var endian := Find(text, "endian", 0);
    if endian.Some? then
      var setting := SettingAt(text, endian.value);
      if setting.None? then None else Some(Replaced(text, setting.value.0, setting.value.1, order))
    else
      var at := InsertAt(text);
      if at.None? then None else Some(Inserted(text, at.value, order))
  }

  /** A setting whose '=' and ';' are the first such characters after "endian" and near enough. */
  lemma SettingIs(text: string, endian: nat, start: nat, end: nat)
    requires endian < start <= end < |text| && start <= endian + REACH + 1 && end < start + VALUE_REACH
    requires text[start - 1] == '=' && text[end] == ';'
    requires forall i :: endian <= i < start - 1 ==> text[i] != '='
    requires forall i :: start <= i < end ==> text[i] != ';'
    ensures SettingAt(text, endian) == Some((start, end))
  {
    FindCharIs(text, '=', endian, start - 1);
    FindCharIs(text, ';', start - 1, end);
  }

  /** The '=' comes after the whole word, whose letters it is none of. */
  lemma EndianBefore(text: string, endian: nat)
    requires OccursAt(text, "endian", endian) && SettingAt(text, endian).Some?
    ensures endian + 6 < SettingAt(text, endian).value.0
  {
    var eq := SettingAt(text, endian).value.0 - 1;
    var word := text[endian..endian + 6];
    assert forall d :: 0 <= d < 6 ==> word[d] != '=';
    assert forall i :: endian <= i < endian + 6 ==> text[i] == word[i - endian];
  }

  lemma NoEqualsBefore(text: string, endian: nat, i: nat)
    requires SettingAt(text, endian).Some? && endian <= i < SettingAt(text, endian).value.0 - 1
    ensures text[i] != '='
  {
    OccursChar(text, '=', i);
  }

  /** Replacing leaves a text whose setting is found at the same place, with the new value in it. */
  lemma ReplacedAgain(text: string, a: Endian)
    requires Find(text, "endian", 0).Some? && SettingAt(text, Find(text, "endian", 0).value).Some?
    ensures var endian := Find(text, "endian", 0).value;
      var (start, end) := SettingAt(text, endian).value;
      var t := Replaced(text, start, end, a);
      Find(t, "endian", 0) == Some(endian) &&
      SettingAt(t, endian) == Some((start, start + 1 + |OrderName(a)|))
  {
    hide SettingAt;
    var endian := Find(text, "endian", 0).value;
    var (start, end) := SettingAt(text, endian).value;
    var t := Replaced(text, start, end, a);
    assert t[..start] == text[..start];
    EndianBefore(text, endian);
    FindInPrefix(text, t, "endian", 0, start);
    var name := OrderName(a);
    forall i | endian <= i < start - 1
      ensures t[i] != '='
    {
      NoEqualsBefore(text, endian, i);
    }
    assert SettingAt(text, endian).Some? ==> start <= endian + REACH + 1 by { Near(text, endian); }
    assert forall i :: start < i < start + 1 + |name| ==> t[i] == name[i - start - 1];
    SettingIs(t, endian, start, start + 1 + |name|);
  }

  lemma Near(text: string, endian: nat)
    requires SettingAt(text, endian).Some?
    ensures SettingAt(text, endian).value.0 <= endian + REACH + 1
  {
  }

  /** After an insertion the new setting is the one that is found. */
  lemma InsertedAgain(text: string, at: nat, a: Endian)
    requires Find(text, "endian", 0).None? && 0 < at <= |text| && (text[at - 1] == '{' || text[at - 1] == '\n')
    ensures var t := Inserted(text, at, a);
      Find(t, "endian", 0) == Some(at + 4) &&
      SettingAt(t, at + 4) == Some((at + 12, at + 13 + |OrderName(a)|))
  {
    hide Find, SettingAt, Inserted;
    var t := Inserted(text, at, a);
    InsertedText(text, at, a);
    EndianIsInserted(text, t, at);
    SettingIs(t, at + 4, at + 12, at + 13 + |OrderName(a)|);
  }

  lemma InsertedText(text: string, at: nat, a: Endian)
    requires at <= |text|
    ensures var t := Inserted(text, at, a);
      var end := at + 13 + |OrderName(a)|;
      end < |t| && t[..at] == text[..at] && t[at..at + 10] == "    endian" &&
      t[at + 11] == '=' && t[end] == ';' &&
      (forall i :: at <= i < at + 11 ==> t[i] != '=') && (forall i :: at + 12 <= i < end ==> t[i] != ';')
  {
    var t := Inserted(text, at, a);
    var line := "    endian = " + OrderName(a) + ";\n";
    assert t == text[..at] + (line + text[at..]);
    assert forall i :: 0 <= i < |line| ==> t[at + i] == line[i];
    assert forall i :: at <= i < at + |line| ==> t[i] == line[i - at];
    assert line[..10] == "    endian" && t[at..at + 10] == line[..10];
    LineText(a);
  }

  lemma LineText(a: Endian)
    ensures var line := "    endian = " + OrderName(a) + ";\n";
      line[11] == '=' && line[13 + |OrderName(a)|] == ';' &&
      (forall i :: 0 <= i < 11 ==> line[i] != '=') &&
      (forall i :: 12 <= i < 13 + |OrderName(a)| ==> line[i] != ';')
  {
    var name := OrderName(a);
    var line := "    endian = " + name + ";\n";
    assert line[..13] == "    endian = ";
    assert line[13..13 + |name|] == name;
    assert forall i :: 13 <= i < 13 + |name| ==> line[i] == name[i - 13];
  }

  lemma EndianIsInserted(text: string, t: string, at: nat)
    requires Find(text, "endian", 0).None? && 0 < at <= |text| && at + 10 <= |t|
    requires text[at - 1] == '{' || text[at - 1] == '\n'
    requires t[..at] == text[..at] && t[at..at + 10] == "    endian"
    ensures Find(t, "endian", 0) == Some(at + 4)
  {
    hide Find;
    assert t[at + 4..at + 10] == t[at..at + 10][4..10] == "endian";
    forall i: nat | i < at + 4
      ensures !OccursAt(t, "endian", i)
    {
      if i + 6 <= at {
        assert t[i..i + 6] == t[..at][i..i + 6] == text[..at][i..i + 6] == text[i..i + 6];
        assert !OccursAt(text, "endian", i);
      } else if i < at {
        assert t[i..i + 6][at - 1 - i] == t[at - 1] == t[..at][at - 1] == text[at - 1];
        assert forall d :: 0 <= d < 6 ==> "endian"[d] != '{' && "endian"[d] != '\n';
      } else {
        assert t[i..i + 6][0] == t[i] == t[at..at + 10][i - at];
      }
    }
    FindIs(t, "endian", 0, at + 4);
  }

  lemma ReplacedReplaced(text: string, start: nat, end: nat, a: Endian, b: Endian)
    requires start <= end <= |text|
    ensures var t := Replaced(text, start, end, a);
      start + 1 + |OrderName(a)| <= |t| &&
      Replaced(t, start, start + 1 + |OrderName(a)|, b) == Replaced(text, start, end, b)
  {
    var t := Replaced(text, start, end, a);
    assert t[..start] == text[..start];
    assert t[start + 1 + |OrderName(a)|..] == text[end..];
  }

  lemma InsertedReplaced(text: string, at: nat, a: Endian, b: Endian)
    requires at <= |text|
    ensures var t := Inserted(text, at, a);
      at + 13 + |OrderName(a)| <= |t| &&
      Replaced(t, at + 12, at + 13 + |OrderName(a)|, b) == Inserted(text, at, b)
  {
    var t := Inserted(text, at, a);
    assert t[..at + 12] == text[..at] + "    endian =";
    assert t[at + 13 + |OrderName(a)|..] == ";\n" + text[at..];
    assert "    endian = " == "    endian =" + " ";
  }

  /** The last write wins: writing b over a written a gives what writing b at first would have given.
      With a == b, writing is idempotent. */
  lemma LastWriteWins(text: string, a: Endian, b: Endian)
    requires Rewrite(text, a).Some?
    ensures Rewrite(Rewrite(text, a).value, b) == Rewrite(text, b)
  {
    hide Find, SettingAt, InsertAt, Replaced, Inserted, OrderName;
    var endian := Find(text, "endian", 0);
    if endian.Some? {
      var (start, end) := SettingAt(text, endian.value).value;
      ReplacedAgain(text, a);
      ReplacedReplaced(text, start, end, a, b);
    } else {
      var at := InsertAt(text).value;
      InsertedAgain(text, at, a);
      InsertedReplaced(text, at, a, b);
    }
  }

  /** Whether the rewriting succeeds depends on the text only. */
  lemma SucceedsAlike(text: string, a: Endian, b: Endian)
    ensures Rewrite(text, a).Some? <==> Rewrite(text, b).Some?
  {
  }

  // ---------- Where, exactly ----------

  /** The setting that is replaced: behind the first '=' after "endian", if it is near, and before the first ';'
      after that, if it is near. */
  lemma SettingExactly(text: string, endian: nat, start: nat, end: nat)
    ensures SettingAt(text, endian) == Some((start, end)) <==>
            IsFirst(text, "=", endian, start - 1) && start - 1 <= endian + 20 &&
            IsFirst(text, ";", start - 1, end) && end <= start - 1 + 50
  {
    if start > 0 {
      FindExactly(text, "=", endian, start - 1);
      FindExactly(text, ";", start - 1, end);
    }
  }

  /** Where a setting is inserted: behind the first line end after the first brace after the first "@protocol",
      or right behind that brace when no line ends after it. */
  lemma InsertExactly(text: string, at: nat)
    ensures InsertAt(text) == Some(at) <==>
            exists p: nat, b: nat :: IsFirst(text, "@protocol", 0, p) && IsFirst(text, "{", p, b) &&
              (IsFirst(text, "\n", b, at - 1) || (at == b + 1 && forall i: nat :: b <= i ==> !OccursAt(text, "\n", i)))
  {
    hide Find;
    if InsertAt(text) == Some(at) {
      var p := Find(text, "@protocol", 0).value;
      var b := Find(text, "{", p).value;
      FindExactly(text, "@protocol", 0, p);
      FindExactly(text, "{", p, b);
      if Find(text, "\n", b).Some? {
        FindExactly(text, "\n", b, at - 1);
      }
    }
    forall p: nat, b: nat | IsFirst(text, "@protocol", 0, p) && IsFirst(text, "{", p, b) &&
        (IsFirst(text, "\n", b, at - 1) || (at == b + 1 && forall i: nat :: b <= i ==> !OccursAt(text, "\n", i)))
      ensures InsertAt(text) == Some(at)
    {
      FindExactly(text, "@protocol", 0, p);
      FindExactly(text, "{", p, b);
      if IsFirst(text, "\n", b, at - 1) {
        FindExactly(text, "\n", b, at - 1);
      }
    }
  }
}
