/**
  The product record returned by the food database (`OpenFoodFactsProduct`)
  and its four computed properties. The stored fields are immutable here; the
  computed ones are functions of them, recomputed on every access.
 */
module Products {
  import opened Wrappers
  import opened Text
  import opened Decimals

  /**
    The stored fields. `code` is a non-nullable string that defaults to "";
    the data annotation marking it required is not enforced by the JSON
    reader, so "" is a possible value.
   */
  datatype Product = Product(
    code: string,
    productName: Option<string>,
    brands: Option<string>,
    imageUrl: Option<string>,
    imageIngredientsUrl: Option<string>,
    servingQuantity: Option<Decimal>,
    servingQuantityUnit: Option<string>)

  /** A product with only its code set, every optional field null. */
  function WithCode(code: string): Product {
    Product(code, None, None, None, None, None, None)
  }

  /** `Where(b => !string.IsNullOrEmpty(b))`, also `StringSplitOptions.RemoveEmptyEntries`. */
  function DropEmpty(xs: seq<string>): (r: seq<string>)
    ensures |r| <= |xs|
    ensures forall i :: 0 <= i < |r| ==> r[i] != []
    ensures (forall i :: 0 <= i < |xs| ==> xs[i] != []) ==> r == xs
  {
    if xs == [] then []
    else if xs[0] == [] then DropEmpty(xs[1..])
    else [xs[0]] + DropEmpty(xs[1..])
  }

  /** `Select(b => b.Trim())`. */
  function TrimAll(xs: seq<string>): (r: seq<string>)
    ensures |r| == |xs|
  {
    if xs == [] then [] else [Trim(xs[0])] + TrimAll(xs[1..])
  }

  /**
    The brand names of a `brands` string: its comma-separated pieces, each
    trimmed, the empty ones dropped, in their original order.
   */
  function BrandsOf(s: string): seq<string> {
    DropEmpty(TrimAll(Split(s, ',')))
  }

  /** `BrandList`, following the property's body step by step. */
  function BrandList(p: Product): (r: seq<string>)
    ensures IsNullOrWhiteSpace(p.brands) ==> r == []
    ensures forall i :: 0 <= i < |r| ==> r[i] != [] && ',' !in r[i] && IsTrimmed(r[i])
    ensures p.brands.Some? ==> |r| <= Count(p.brands.value, ',') + 1
  {
    if IsNullOrWhiteSpace(p.brands) then []
    else
      var pieces := Split(p.brands.value, ',');
      DropTrimDrop(pieces);
      CleanPieces(pieces);
      DropEmpty(TrimAll(DropEmpty(pieces)))
  }

  /** `ServingSize`: "<quantity> <unit>" when both are usable, otherwise "". */
  function ServingSize(p: Product): (r: string)
    ensures r != [] <==> p.servingQuantity.Some? && !IsNullOrWhiteSpace(p.servingQuantityUnit)
  {
    if p.servingQuantity.Some? && !IsNullOrWhiteSpace(p.servingQuantityUnit) then
      Render(p.servingQuantity.value) + " " + p.servingQuantityUnit.value
    else
      ""
  }

  /** `HasImage`: the image URL is present and has a visible character. */
  predicate HasImage(p: Product)
    ensures HasImage(p) <==>
      p.imageUrl.Some? && exists i :: 0 <= i < |p.imageUrl.value| && !IsWhiteSpace(p.imageUrl.value[i])
  {
    !IsNullOrWhiteSpace(p.imageUrl)
  }

  /** `HasIngredientsImage`: the same test over the ingredients image URL. */
  predicate HasIngredientsImage(p: Product)
    ensures HasIngredientsImage(p) <==>
      p.imageIngredientsUrl.Some?
      && exists i :: 0 <= i < |p.imageIngredientsUrl.value| && !IsWhiteSpace(p.imageIngredientsUrl.value[i])
  {
    !IsNullOrWhiteSpace(p.imageIngredientsUrl)
  }

  /** Each image test reads only its own field: changing the other URL changes nothing. */
  lemma ImageTestsIndependent(p: Product, url: Option<string>)
    ensures HasImage(p.(imageIngredientsUrl := url)) == HasImage(p)
    ensures HasIngredientsImage(p.(imageUrl := url)) == HasIngredientsImage(p)
    ensures HasImage(p.(imageUrl := url)) == !IsNullOrWhiteSpace(url)
  {
  }

  // ---------------------------------------------------------------------------
  // BrandList against its reference reading

  lemma {:induction false} DropTrimDrop(xs: seq<string>)
    ensures DropEmpty(TrimAll(DropEmpty(xs))) == DropEmpty(TrimAll(xs))
  {
    if xs != [] {
      DropTrimDrop(xs[1..]);
      assert TrimAll(xs)[1..] == TrimAll(xs[1..]);
      if xs[0] != [] {
        assert DropEmpty(xs)[1..] == DropEmpty(xs[1..]);
        assert TrimAll(DropEmpty(xs))[1..] == TrimAll(DropEmpty(xs[1..]));
      }
    }
  }

  /** Names taken from comma-free pieces are non-empty, comma-free and trimmed. */
  lemma {:induction false} CleanPieces(xs: seq<string>)
    requires forall i :: 0 <= i < |xs| ==> ',' !in xs[i]
    ensures forall i :: 0 <= i < |DropEmpty(TrimAll(xs))| ==>
      var x := DropEmpty(TrimAll(xs))[i]; x != [] && ',' !in x && IsTrimmed(x)
  {
    if xs != [] {
      CleanPieces(xs[1..]);
      var t := Trim(xs[0]);
      var r, rest := DropEmpty(TrimAll(xs)), DropEmpty(TrimAll(xs[1..]));
      assert TrimAll(xs) == [t] + TrimAll(xs[1..]);
      assert ',' !in t && IsTrimmed(t);
      if t == [] {
        assert r == rest;
      } else {
        assert r == [t] + rest;
        forall i | 0 <= i < |r| ensures r[i] != [] && ',' !in r[i] && IsTrimmed(r[i]) {
          if i > 0 {
            assert r[i] == rest[i - 1];
          }
        }
      }
    }
  }

  lemma {:induction false} BlankPiecesVanish(xs: seq<string>)
    requires forall i :: 0 <= i < |xs| ==> IsBlank(xs[i])
    ensures DropEmpty(TrimAll(xs)) == []
  {
    if xs != [] {
      BlankPiecesVanish(xs[1..]);
      assert TrimAll(xs)[1..] == TrimAll(xs[1..]);
    }
  }

  /**
    `BrandList` is exactly the trimmed, non-empty comma pieces of `brands` in
    order: the white-space guard and the first empty-entry filter change
    nothing but the amount of work done.
   */
  lemma BrandListIsBrandsOf(p: Product)
    ensures BrandList(p) == (if p.brands.None? then [] else BrandsOf(p.brands.value))
  {
    if p.brands.Some? {
      var s := p.brands.value;
      var pieces := Split(s, ',');
      if IsBlank(s) {
        SplitCharsFromInput(s, ',');
        forall i | 0 <= i < |pieces| ensures IsBlank(pieces[i]) {
          forall k | 0 <= k < |pieces[i]| ensures IsWhiteSpace(pieces[i][k]) {
            assert pieces[i][k] in s;
          }
        }
        BlankPiecesVanish(pieces);
      } else {
        DropTrimDrop(pieces);
      }
    }
  }

  /** Clean names, comma-joined, split back into themselves. */
  lemma BrandsOfJoin(names: seq<string>)
    requires forall i :: 0 <= i < |names| ==> names[i] != [] && ',' !in names[i] && IsTrimmed(names[i])
    ensures BrandsOf(Join(names, ',')) == names
  {
    if names == [] {
      assert Split([], ',') == [[]];
      assert TrimAll([[]]) == [[]];
    } else {
      SplitJoin(names, ',');
      TrimAllTrimmed(names);
    }
  }

  lemma {:induction false} TrimAllTrimmed(xs: seq<string>)
    requires forall i :: 0 <= i < |xs| ==> IsTrimmed(xs[i])
    ensures TrimAll(xs) == xs
  {
    if xs != [] {
      TrimAllTrimmed(xs[1..]);
      var t := Trim(xs[0]);
      assert t == xs[0];
      assert TrimAll(xs) == [t] + TrimAll(xs[1..]);
      assert xs == [xs[0]] + xs[1..];
    }
  }

  /** Brand names recomputed from their comma-join are the same names. */
  lemma BrandListIdempotent(p: Product)
    ensures BrandList(p.(brands := Some(Join(BrandList(p), ',')))) == BrandList(p)
  {
    var names := BrandList(p);
    var q := p.(brands := Some(Join(names, ',')));
    BrandsOfJoin(names);
    BrandListIsBrandsOf(q);
  }

  /**
    The serving size reads back: splitting at the first space gives a numeral
    that parses to the quantity, and the rest, rejoined, is the unit verbatim
    (untrimmed, with any spaces it holds).
   */
  lemma ServingSizeReadsBack(p: Product)
    requires p.servingQuantity.Some? && !IsNullOrWhiteSpace(p.servingQuantityUnit)
    ensures var parts := Split(ServingSize(p), ' ');
      && |parts| >= 2
      && ParseDecimal(parts[0]) == Some(p.servingQuantity.value)
      && Join(parts[1..], ' ') == p.servingQuantityUnit.value
  {
    var number := Render(p.servingQuantity.value);
    var unit := p.servingQuantityUnit.value;
    assert ' ' !in number by {
      RenderHasNoWhiteSpace(p.servingQuantity.value);
    }
    assert ServingSize(p) == number + [' '] + unit;
    SplitAtSeparator(number, ' ', unit);
    JoinSplit(unit, ' ');
    RenderParses(p.servingQuantity.value);
  }

  // ---------------------------------------------------------------------------
  // Examples

  /** "Nutella,Ferrero" gives the two names in order. */
  lemma BrandListNutellaFerrero()
    ensures BrandList(WithCode("").(brands := Some("Nutella,Ferrero"))) == ["Nutella", "Ferrero"]
  {
    var names := ["Nutella", "Ferrero"];
    assert Join(names, ',') == "Nutella,Ferrero";
    assert IsTrimmed("Nutella") && IsTrimmed("Ferrero");
    BrandsOfJoin(names);
    BrandListIsBrandsOf(WithCode("").(brands := Some("Nutella,Ferrero")));
  }

  /** "A, B ," gives ["A", "B"]: pieces trimmed, the empty last piece dropped. */
  lemma BrandListTrimsAndDrops()
    ensures BrandList(WithCode("").(brands := Some("A, B ,"))) == ["A", "B"]
  {
    var s := "A, B ,";
    assert BrandsOf(s) == ["A", "B"] by {
      SplitExample();
      TrimAllPieces();
      DropEmptyExample();
    }
    BrandListIsBrandsOf(WithCode("").(brands := Some(s)));
  }

  lemma DropEmptyExample()
    ensures DropEmpty(["A", "B", ""]) == ["A", "B"]
  {
    assert DropEmpty([""]) == [];
  }

  lemma SplitExample()
    ensures Split("A, B ,", ',') == ["A", " B ", ""]
  {
    var pieces := ["A", " B ", ""];
    assert Join(pieces, ',') == "A, B ," by {
      assert Join(pieces[2..], ',') == "";
      assert Join(pieces[1..], ',') == " B ,";
    }
    SplitJoin(pieces, ',');
  }

  lemma TrimAllPieces()
    ensures TrimAll(["A", " B ", ""]) == ["A", "B", ""]
  {
    var xs := ["A", " B ", ""];
    TrimPieces();
    assert xs[1..] == [" B ", ""] && xs[1..][1..] == [""];
    assert TrimAll([""]) == [""];
    assert TrimAll([" B ", ""]) == ["B"] + [""];
    assert TrimAll(xs) == ["A"] + ["B", ""];
  }

  lemma TrimPieces()
    ensures Trim("A") == "A" && Trim(" B ") == "B" && Trim("") == ""
  {
    TrimLetter();
    TrimSpacedLetter();
  }

  lemma TrimLetter()
    ensures Trim("A") == "A"
  {
    assert "A"[0] == 'A';
    assert IsTrimmed("A");
  }

  lemma TrimSpacedLetter()
    ensures Trim(" B ") == "B"
  {
    TrimStartSpaced();
    TrimEndSpaced();
  }

  lemma TrimStartSpaced()
    ensures TrimStart(" B ") == "B "
  {
    assert " B "[1..] == "B ";
    assert "B "[0] == 'B';
  }

  lemma TrimEndSpaced()
    ensures TrimEnd("B ") == "B"
  {
    assert "B "[..1] == "B";
    assert "B"[0] == 'B';
  }

  /** Quantity 15 with unit "g" gives "15 g"; with no quantity the result is "". */
  lemma ServingSizeExamples()
    ensures ServingSize(WithCode("").(servingQuantity := Some(Decimal(15, 0)), servingQuantityUnit := Some("g"))) == "15 g"
    ensures ServingSize(WithCode("").(servingQuantityUnit := Some("g"))) == ""
  {
    RenderWhole(15);
    assert Numerals.DigitChar(1) == '1' && Numerals.DigitChar(5) == '5';
    assert Numerals.NatToString(15) == "15";
    assert !IsWhiteSpace('g');
    assert "g"[0] == 'g';
    assert !IsBlank("g");
    assert "15" + " " + "g" == "15 g";
  }
}
