/** The product grid of the site: clicking a product opens its detail
    view, whose arrows step through the products cyclically. The React
    state cell `selectedProduct` is the field `selected`. */
module ProductGallery {
  import opened Wrappers
  import opened Cyclic

  datatype Product = Product(name: string, price: string, description: string, image: string)

  class ProductGallery {
    /** The `products` prop. */
    const products: seq<Product>
    /** `selectedProduct`: the product shown in the detail view, if any. */
    var selected: Option<nat>

    /** The selection, when there is one, is a valid index into `products`. */
    ghost predicate Valid()
      reads this
    {
      selected.Some? ==> selected.value < |products|
    }

    constructor (products: seq<Product>)
      ensures Valid()
      ensures this.products == products && selected == None
    {
      this.products := products;
      selected := None;
    }

    /** `openLightbox(index)`, called by the card of product `index`. */
    method OpenLightbox(index: nat)
      requires Valid() && index < |products|
      modifies this
      ensures Valid()
      ensures selected == Some(index)
    {
      selected := Some(index);
    }

    /** `closeLightbox()`. */
    method CloseLightbox()
      requires Valid()
      modifies this
      ensures Valid()
      ensures selected == None
    {
      selected := None;
    }

    /** `nextProduct`: with a product open, move to the next one, wrapping
        from the last to the first; with none open, do nothing. */
    method NextProduct()
      requires Valid()
      modifies this
      ensures Valid()
      ensures old(selected).None? ==> selected == None
      ensures old(selected).Some? ==> selected == Some(Next(old(selected).value, |products|))
    {
      if selected.Some? {
        var i := selected.value;
        var j := JsRem(i + 1, |products|);
        NextIsRemainder(i, |products|);
        selected := Some(j);
      }
    }

    /** `prevProduct`: with a product open, move to the previous one,
        wrapping from the first to the last; with none open, do nothing. */
    method PrevProduct()
      requires Valid()
      modifies this
      ensures Valid()
      ensures old(selected).None? ==> selected == None
      ensures old(selected).Some? ==> selected == Some(Prev(old(selected).value, |products|))
    {
      if selected.Some? {
        var i := selected.value;
        var j := JsRem(i - 1 + |products|, |products|);
        PrevIsRemainder(i, |products|);
        selected := Some(j);
      }
    }

    /** The product the detail view reads as `products[selectedProduct]`;
        the invariant keeps that read in bounds. */
    function Detail(): (p: Option<Product>)
      requires Valid()
      reads this
      ensures p.Some? <==> selected.Some?
      ensures p.Some? ==> p.value in products
    {
      if selected.Some? then Some(products[selected.value]) else None
    }
  }
}
