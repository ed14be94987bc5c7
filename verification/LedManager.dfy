/** Dispatch of indicator updates to the first driver that has the indicator. */
module LedManager {
  import opened Indicators
  import Pca9955

  /** What can be observed of a registered driver; drivers are held weakly and may be gone. */
  datatype DriverState = Gone | Live(channels: Pca9955.Channels, regs: Pca9955.Registers)

  type Panel = seq<DriverState>

  predicate Has(d: DriverState, which: Indicator) {
    d.Live? && which in d.channels
  }

  /** The first driver that has the indicator, or the number of drivers. */
  function Owner(panel: Panel, which: Indicator): (i: nat)
    ensures i <= |panel|
    ensures i < |panel| ==> Has(panel[i], which)
    ensures forall j :: 0 <= j < i ==> !Has(panel[j], which)
  {
    if panel == [] || Has(panel[0], which) then 0
    else
      var i := Owner(panel[1..], which);
      assert forall j :: 0 < j < |panel| ==> panel[j] == panel[1..][j - 1];
      1 + i
  }

  lemma OwnerUnique(panel: Panel, which: Indicator, i: nat)
    requires i <= |panel| && (i < |panel| ==> Has(panel[i], which))
    requires forall j :: 0 <= j < i ==> !Has(panel[j], which)
    ensures i == Owner(panel, which)
  {}

  function Painted(panel: Panel, i: nat, which: Indicator, u: Update): Panel
    requires i < |panel| && Has(panel[i], which)
  {
    panel[i := panel[i].(regs := Pca9955.Paint(panel[i].regs, panel[i].channels[which], u))]
  }

  /** Only the owner's registers change. */
  function Show(panel: Panel, which: Indicator, u: Update): Panel {
    var i := Owner(panel, which);
    if i == |panel| then panel else Painted(panel, i, which, u)
  }

  /** A colour for an indicator whose owner gave it no channels is refused. */
  predicate Refused(panel: Panel, which: Indicator, u: Update) {
    var i := Owner(panel, which);
    u.Color? && i < |panel| && panel[i].channels[which] == []
  }

  /** The first live driver with the indicator, spelled out. */
  predicate OwnedBy(panel: Panel, which: Indicator, i: nat) {
    && i < |panel| && panel[i].Live? && which in panel[i].channels
    && forall j :: 0 <= j < i && panel[j].Live? ==> which !in panel[j].channels
  }

  /** Brightness is never refused, and a colour exactly if the first live driver with the indicator
      gave it no channels. */
  lemma RefusedIff(panel: Panel, which: Indicator, level: real, red: real, green: real, blue: real)
    ensures !Refused(panel, which, Brightness(level))
    ensures Refused(panel, which, Color(red, green, blue)) <==>
            exists i: nat :: OwnedBy(panel, which, i) && panel[i].channels[which] == []
  {
    var owner := Owner(panel, which);
    if owner < |panel| {
      assert forall j :: 0 <= j < owner ==> !Has(panel[j], which);
      assert OwnedBy(panel, which, owner);
    }
    forall i: nat | OwnedBy(panel, which, i)
      ensures i == owner
    {
      OwnerUnique(panel, which, i);
    }
  }

  class LedManager {
    var drivers: seq<Pca9955.Pca9955?>

    ghost function Devices(): set<Pca9955.Pca9955>
      reads this
    {
      set d: Pca9955.Pca9955 | d in drivers
    }

    ghost predicate Valid()
      reads this, Devices()
    {
      && (forall i :: 0 <= i < |drivers| && drivers[i] != null ==> drivers[i].Valid())
      && (forall i, j :: 0 <= i < j < |drivers| && drivers[i] != null ==> drivers[i] != drivers[j])
    }

    static ghost function StateOf(d: Pca9955.Pca9955?): DriverState
      reads d
    {
      if d == null then Gone else Live(d.channels, d.regs)
    }

    ghost function View(): (panel: Panel)
      reads this, Devices()
      ensures |panel| == |drivers|
      ensures forall i :: 0 <= i < |drivers| ==> panel[i] == StateOf(drivers[i])
    {
      seq(|drivers|, i requires 0 <= i < |drivers| reads this, Devices() => StateOf(drivers[i]))
    }

    constructor ()
      ensures Valid() && View() == []
    {
      drivers := [];
    }

    method RegisterDriver(driver: Pca9955.Pca9955)
      requires Valid() && driver.Valid() && driver !in drivers
      modifies this
      ensures Valid() && drivers == old(drivers) + [driver]
      ensures View() == old(View()) + [Live(driver.channels, driver.regs)]
    {
      drivers := drivers + [driver];
    }

    /** One driver's turn: only its own registers can change. */
    method OfferBrightness(i: nat, which: Indicator, brightness: real) returns (handled: bool)
      requires Valid() && i < |drivers| && drivers[i] != null
      modifies Devices()`regs
      ensures Valid() && handled == Has(old(View())[i], which)
      ensures View() == if handled then Painted(old(View()), i, which, Brightness(brightness)) else old(View())
    {
      hide Pca9955.Paint, Pca9955.Disjoint;
      ghost var panel := View();
      var driver := drivers[i];
      handled := driver.SetIndicatorBrightness(which, brightness);
      assert forall j :: 0 <= j < |drivers| && j != i ==> View()[j] == panel[j];
    }

    method OfferColor(i: nat, which: Indicator, red: real, green: real, blue: real)
      returns (outcome: Pca9955.Outcome)
      requires Valid() && i < |drivers| && drivers[i] != null
      modifies Devices()`regs
      ensures Valid() && (outcome.NotMine? <==> !Has(old(View())[i], which))
      ensures Has(old(View())[i], which) ==> (outcome.Threw? <==> old(View())[i].channels[which] == [])
      ensures View() == if outcome.Handled? then Painted(old(View()), i, which, Color(red, green, blue))
                        else old(View())
    {
      hide Pca9955.Paint, Pca9955.Disjoint;
      ghost var panel := View();
      var driver := drivers[i];
      outcome := driver.SetIndicatorColor(which, red, green, blue);
      assert forall j :: 0 <= j < |drivers| && j != i ==> View()[j] == panel[j];
    }

    method SetBrightness(which: Indicator, brightness: real)
      requires Valid()
      modifies Devices()`regs
      ensures Valid() && View() == Show(old(View()), which, Brightness(brightness))
    {
      hide Pca9955.Paint, Pca9955.Disjoint, Painted;
      ghost var panel := View();
      for i := 0 to |drivers|
        invariant Valid() && View() == panel
        invariant forall j :: 0 <= j < i ==> !Has(panel[j], which)
      {
        if drivers[i] == null {
          continue;
        }
        var handled := OfferBrightness(i, which, brightness);
        if handled {
          OwnerUnique(panel, which, i);
          return;
        }
      }
      OwnerUnique(panel, which, |panel|);
    }

    method SetColor(which: Indicator, red: real, green: real, blue: real) returns (threw: bool)
      requires Valid()
      modifies Devices()`regs
      ensures Valid() && threw == Refused(old(View()), which, Color(red, green, blue))
      ensures View() == if threw then old(View()) else Show(old(View()), which, Color(red, green, blue))
    {
      hide Pca9955.Paint, Pca9955.Disjoint, Painted;
      ghost var panel := View();
      for i := 0 to |drivers|
        invariant Valid() && View() == panel
        invariant forall j :: 0 <= j < i ==> !Has(panel[j], which)
      {
        if drivers[i] == null {
          continue;
        }
        var outcome := OfferColor(i, which, red, green, blue);
        if !outcome.NotMine? {
          OwnerUnique(panel, which, i);
          return outcome.Threw?;
        }
      }
      OwnerUnique(panel, which, |panel|);
      return false;
    }
  }
}
