/** `SnakeCaseColumnMapper`: Dapper's column-to-property map for `PaymentCard`.
    A column matches a property when the property's snake_case name equals the
    column name, ignoring case. Reflection over the type is replaced by the list
    of its property names. */
module SnakeCaseColumnMapper {
  import opened Common
  import opened Text
  import Models
  import PartitionMigration

  /** Whether `s[i]` is a lower-case ASCII letter directly followed by an upper-case one. */
  predicate IsBoundary(s: string, i: int)
  {
    0 <= i && i + 1 < |s| && IsAsciiLower(s[i]) && IsAsciiUpper(s[i + 1])
  }

  /** `Regex.Replace(input, "([a-z])([A-Z])", "$1_$2")`: the scan goes left to
      right and a match consumes both of its letters. */
  function RegexReplace(s: string): (r: string)
    ensures |r| >= |s|
    decreases |s|
  {
    if |s| < 2 then s
    else if IsAsciiLower(s[0]) && IsAsciiUpper(s[1]) then [s[0], '_', s[1]] + RegexReplace(s[2..])
    else [s[0]] + RegexReplace(s[1..])
  }

  /** `ToSnakeCase`: an empty input is returned as it is; otherwise the regex
      replacement, then lower-casing. */
  function ToSnakeCase(input: string): (r: string)
    ensures |r| >= |input|
    ensures forall i :: 0 <= i < |r| ==> !IsAsciiUpper(r[i])
  {
    if input == [] then input else Lower(RegexReplace(input))
  }

  /** The reference reading of the replacement: an underscore after every
      lower-case letter that is directly followed by an upper-case one. */
  function Underscored(s: string): (r: string)
    ensures |r| == |s| + Boundaries(s)
  {
    if s == [] then [] else [s[0]] + (if IsBoundary(s, 0) then "_" else "") + Underscored(s[1..])
  }

  /** The number of lower-to-upper boundaries in `s`. */
  function Boundaries(s: string): nat
  {
    if s == [] then 0 else (if IsBoundary(s, 0) then 1 else 0) + Boundaries(s[1..])
  }

  /** Left-to-right, non-overlapping matching loses no boundary: the letter a
      match consumes second is upper-case, so it cannot start another match. */
  lemma {:induction false} RegexReplaceIsUnderscored(s: string)
    ensures RegexReplace(s) == Underscored(s)
  {
    if |s| < 2 {
    } else if IsAsciiLower(s[0]) && IsAsciiUpper(s[1]) {
      RegexReplaceIsUnderscored(s[2..]);
      assert s[1..][1..] == s[2..];
      assert !IsBoundary(s[1..], 0);
    } else {
      RegexReplaceIsUnderscored(s[1..]);
    }
  }

  /** `ToSnakeCase` inserts `_` at every lower-to-upper boundary and lower-cases
      the rest; its length grows by the number of boundaries, and no upper-case
      ASCII letter is left. */
  lemma ToSnakeCaseSpec(s: string)
    ensures ToSnakeCase(s) == Lower(Underscored(s))
    ensures |ToSnakeCase(s)| == |s| + Boundaries(s)
    ensures forall i :: 0 <= i < |ToSnakeCase(s)| ==> !IsAsciiUpper(ToSnakeCase(s)[i])
  {
    RegexReplaceIsUnderscored(s);
  }

  /** A string without boundaries is left as it is by the replacement. */
  lemma {:induction false} NoBoundaryUnchanged(s: string)
    requires forall i :: !IsBoundary(s, i)
    ensures Underscored(s) == s
  {
    if s != [] {
      forall i ensures !IsBoundary(s[1..], i) {
        assert IsBoundary(s[1..], i) ==> IsBoundary(s, i + 1);
      }
      NoBoundaryUnchanged(s[1..]);
    }
  }

  /** `ToSnakeCase` is idempotent: its output has no upper-case letter, hence
      no boundary left to split. */
  lemma ToSnakeCaseIdempotent(s: string)
    ensures ToSnakeCase(ToSnakeCase(s)) == ToSnakeCase(s)
  {
    var t := ToSnakeCase(s);
    ToSnakeCaseSpec(s);
    ToSnakeCaseSpec(t);
    assert forall i :: !IsBoundary(t, i);
    NoBoundaryUnchanged(t);
    LowerIdempotent(t);
  }

  /** Splitting at the junction of two strings: a boundary can only straddle it
      when `a` ends lower-case and `b` starts upper-case. */
  lemma {:induction false} UnderscoredAppend(a: string, b: string)
    ensures Underscored(a + b) == Underscored(a)
      + (if a != [] && b != [] && IsAsciiLower(a[|a| - 1]) && IsAsciiUpper(b[0]) then "_" else "")
      + Underscored(b)
  {
    if a == [] {
      assert a + b == b;
    } else {
      var ab, tail := a + b, a[1..];
      assert ab[1..] == tail + b;
      var mid := if b != [] && IsAsciiLower(a[|a| - 1]) && IsAsciiUpper(b[0]) then "_" else "";
      var sep := if IsBoundary(ab, 0) then "_" else "";
      var head := [a[0]] + sep;
      assert Underscored(ab) == head + Underscored(tail + b);
      BoundaryAtJunction(a, b);
      if |a| == 1 {
        assert tail + b == b;
        assert sep == mid && Underscored(a) == [a[0]];
      } else {
        UnderscoredAppend(tail, b);
        assert tail[|tail| - 1] == a[|a| - 1];
        var ut, ub := Underscored(tail), Underscored(b);
        assert Underscored(tail + b) == ut + mid + ub;
        assert Underscored(a) == head + ut;
        Regroup(head, ut, mid, ub);
      }
    }
  }

  lemma Regroup<T>(w: seq<T>, x: seq<T>, y: seq<T>, z: seq<T>)
    ensures w + (x + y + z) == (w + x) + y + z
  {
    assert w + (x + y + z) == w + x + (y + z);
  }

  /** The first position of `a + b` is a boundary as it is in `a`, or, when
      `a` has one letter, when that letter and the first of `b` form one. */
  lemma BoundaryAtJunction(a: string, b: string)
    requires a != []
    ensures IsBoundary(a + b, 0) <==>
      if |a| == 1 then b != [] && IsAsciiLower(a[0]) && IsAsciiUpper(b[0]) else IsBoundary(a, 0)
  {
    var ab := a + b;
    assert ab[0] == a[0];
    if |a| > 1 {
      assert ab[1] == a[1];
    } else if b != [] {
      assert ab[1] == b[0];
    }
  }

  /** A capitalised word of at least two letters: one upper-case letter, then lower-case ones. */
  predicate IsWord(w: string)
  {
    |w| >= 2 && IsAsciiUpper(w[0]) && forall i :: 1 <= i < |w| ==> IsAsciiLower(w[i])
  }

  /** A word has no boundary inside it. */
  lemma WordUnderscored(w: string)
    requires IsWord(w)
    ensures Underscored(w) == w
  {
    NoBoundaryUnchanged(w);
  }

  /** Appending a capitalised word to a name that ends in lower case adds one underscore before it. */
  lemma AppendWord(name: string, w: string)
    requires name != [] && IsAsciiLower(name[|name| - 1])
    requires IsWord(w)
    ensures Underscored(name + w) == Underscored(name) + "_" + w
  {
    UnderscoredAppend(name, w);
    WordUnderscored(w);
  }

  /** A Dapper member map: the column and the property it fills. */
  datatype MemberMap = MemberMap(columnName: string, property: string)

  /** Whether the property's snake_case name equals the column name, ignoring case. */
  predicate Matches(property: string, columnName: string)
    ensures Matches(property, columnName) <==> Lower(columnName) == ToSnakeCase(property)
  {
    LowerKeepsLower(ToSnakeCase(property));
    EqualsIgnoreCase(ToSnakeCase(property), columnName)
  }

  /** Property `j` is the first at or after `start`, in declaration order, to match the column. */
  predicate IsFirstMatchFrom(properties: seq<string>, columnName: string, start: int, j: int)
  {
    0 <= j < |properties| && Matches(properties[j], columnName)
    && forall k :: 0 <= start <= k < j ==> !Matches(properties[k], columnName)
  }

  /** Property `j` is the first, in declaration order, to match the column. */
  predicate IsFirstMatch(properties: seq<string>, columnName: string, j: int)
  {
    IsFirstMatchFrom(properties, columnName, 0, j)
  }

  /** `FirstOrDefault` over the properties from index `start` on: the index of
      the first one that matches the column. */
  function FindProperty(properties: seq<string>, columnName: string, start: nat): (r: Option<nat>)
    requires start <= |properties|
    ensures r.Some? ==> start <= r.value && IsFirstMatchFrom(properties, columnName, start, r.value)
    ensures r.None? <==> forall j :: start <= j < |properties| ==> !Matches(properties[j], columnName)
    decreases |properties| - start
  {
    if start == |properties| then None
    else if Matches(properties[start], columnName) then Some(start)
    else FindProperty(properties, columnName, start + 1)
  }

  /** `GetMember(columnName)`: a member map for the first matching property, or null when none matches. */
  function GetMember(properties: seq<string>, columnName: string): (r: Option<MemberMap>)
    ensures r.None? <==> forall j :: 0 <= j < |properties| ==> !Matches(properties[j], columnName)
    ensures r.Some? ==> r.value.columnName == columnName
    ensures r.Some? ==> exists j :: IsFirstMatch(properties, columnName, j) && properties[j] == r.value.property
  {
    match FindProperty(properties, columnName, 0)
    case None => None
    case Some(i) => Some(MemberMap(columnName, properties[i]))
  }

  /** The same words lower-cased and joined by underscores. */
  function JoinSnake(words: seq<string>): string
  {
    if words == [] then []
    else if |words| == 1 then Lower(words[0])
    else Lower(words[0]) + "_" + JoinSnake(words[1..])
  }

  lemma LowerAppend(a: string, b: string)
    ensures Lower(a + b) == Lower(a) + Lower(b)
  {
  }

  /** A PascalCase name made of capitalised words becomes those words,
      lower-cased and joined by underscores. */
  lemma {:induction false} PascalCaseToSnakeCase(words: seq<string>)
    requires |words| >= 1 && forall i :: 0 <= i < |words| ==> IsWord(words[i])
    ensures ToSnakeCase(Models.Concat(words)) == JoinSnake(words)
  {
    RegexReplaceIsUnderscored(Models.Concat(words));
    UnderscoredWords(words);
  }

  lemma {:induction false} UnderscoredWords(words: seq<string>)
    requires |words| >= 1 && forall i :: 0 <= i < |words| ==> IsWord(words[i])
    ensures Models.Concat(words) != []
    ensures Lower(Underscored(Models.Concat(words))) == JoinSnake(words)
  {
    var w := words[0];
    if |words| == 1 {
      assert Models.Concat(words) == w + [] == w;
      WordUnderscored(w);
    } else {
      var rest := words[1..];
      assert forall i :: 0 <= i < |rest| ==> IsWord(rest[i]) by {
        forall i | 0 <= i < |rest| ensures IsWord(rest[i]) {
          assert rest[i] == words[i + 1];
        }
      }
      UnderscoredWords(rest);
      var c := Models.Concat(rest);
      assert c == rest[0] + Models.Concat(rest[1..]);
      assert c[0] == rest[0][0];
      PrependWord(w, c);
    }
  }

  /** Putting a capitalised word in front of a name that starts upper-case
      adds one underscore between them. */
  lemma PrependWord(w: string, c: string)
    requires IsWord(w) && c != [] && IsAsciiUpper(c[0])
    ensures Lower(Underscored(w + c)) == Lower(w) + "_" + Lower(Underscored(c))
  {
    UnderscoredAppend(w, c);
    WordUnderscored(w);
    LowerAppend(w + "_", Underscored(c));
    LowerAppend(w, "_");
  }

  lemma ColumnsAreJoins()
    ensures forall i :: 0 <= i < |PartitionMigration.Columns| ==> PartitionMigration.Columns[i] == JoinSnake(Models.PropertyWords[i])
  {
    JoinId();
    JoinCardToken();
    JoinCardMask();
    JoinExpirationYear();
    JoinExpirationMonth();
    JoinCardType();
    JoinUserFirstName();
    JoinUserLastName();
    JoinNotificationSent();
    JoinCreatedAt();
  }

  lemma JoinId() ensures JoinSnake(["Id"]) == "id" {}
  lemma JoinCardToken() ensures JoinSnake(["Card", "Token"]) == "card_token" {
    assert JoinSnake(["Token"]) == "token";
  }
  lemma JoinCardMask() ensures JoinSnake(["Card", "Mask"]) == "card_mask" {
    assert JoinSnake(["Mask"]) == "mask";
  }
  lemma JoinExpirationYear() ensures JoinSnake(["Expiration", "Year"]) == "expiration_year" {
    assert JoinSnake(["Year"]) == "year";
  }
  lemma JoinExpirationMonth() ensures JoinSnake(["Expiration", "Month"]) == "expiration_month" {
    assert JoinSnake(["Month"]) == "month";
  }
  lemma JoinCardType() ensures JoinSnake(["Card", "Type"]) == "card_type" {
    assert JoinSnake(["Type"]) == "type";
  }
  lemma JoinFirstName() ensures JoinSnake(["First", "Name"]) == "first_name" {
    assert JoinSnake(["Name"]) == "name";
  }
  lemma JoinUserFirstName() ensures JoinSnake(["User", "First", "Name"]) == "user_first_name" {
    JoinFirstName();
  }
  lemma JoinLastName() ensures JoinSnake(["Last", "Name"]) == "last_name" {
    assert JoinSnake(["Name"]) == "name";
  }
  lemma JoinUserLastName() ensures JoinSnake(["User", "Last", "Name"]) == "user_last_name" {
    JoinLastName();
  }
  lemma JoinNotificationSent() ensures JoinSnake(["Notification", "Sent"]) == "notification_sent" {
    assert JoinSnake(["Sent"]) == "sent";
  }
  lemma JoinCreatedAt() ensures JoinSnake(["Created", "At"]) == "created_at" {
    assert JoinSnake(["At"]) == "at";
  }

  /** Lower-casing leaves a string without upper-case ASCII letters as it is. */
  lemma LowerKeepsLower(s: string)
    requires forall i :: 0 <= i < |s| ==> !IsAsciiUpper(s[i])
    ensures Lower(s) == s
  {
  }

  /** Each property of `PaymentCard` becomes the column of the same position in
      the table: `UserFirstName` becomes `user_first_name`, `NotificationSent`
      becomes `notification_sent`, and so on. */
  lemma PropertySnakeNames()
    ensures forall i :: 0 <= i < |Models.PropertyNames| ==> ToSnakeCase(Models.PropertyNames[i]) == PartitionMigration.Columns[i]
  {
    ColumnsAreJoins();
    forall i | 0 <= i < |Models.PropertyNames|
      ensures ToSnakeCase(Models.PropertyNames[i]) == PartitionMigration.Columns[i]
    {
      PropertyWordsAreWords(i);
      PascalCaseToSnakeCase(Models.PropertyWords[i]);
    }
  }

  /** The words of each property name are capitalised words. */
  lemma PropertyWordsAreWords(i: int)
    requires 0 <= i < |Models.PropertyWords|
    ensures |Models.PropertyWords[i]| >= 1
    ensures forall j :: 0 <= j < |Models.PropertyWords[i]| ==> IsWord(Models.PropertyWords[i][j])
  {
  }

  lemma ColumnsDistinct()
    ensures forall i, j :: 0 <= i < j < |PartitionMigration.Columns| ==> PartitionMigration.Columns[i] != PartitionMigration.Columns[j]
  {
  }

  /** Every column of the table is mapped to the property it was named after. */
  lemma ColumnMapsToProperty(i: int)
    requires 0 <= i < |PartitionMigration.Columns|
    ensures GetMember(Models.PropertyNames, PartitionMigration.Columns[i])
      == Some(MemberMap(PartitionMigration.Columns[i], Models.PropertyNames[i]))
  {
    PropertySnakeNames();
    ColumnsDistinct();
    var cols := PartitionMigration.Columns;
    forall k | 0 <= k < |cols|
      ensures Matches(Models.PropertyNames[k], cols[i]) <==> k == i
    {
      ToSnakeCaseSpec(Models.PropertyNames[k]);
      ToSnakeCaseSpec(Models.PropertyNames[i]);
      LowerKeepsLower(cols[k]);
      LowerKeepsLower(cols[i]);
    }
  }
}
