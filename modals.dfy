/** The modal panels of the shared page script: `showModal` and `closeModal`
    toggle a panel's "active" class and lock or restore the page's scrolling,
    Escape closes every open panel, and a click on a panel's backdrop
    closes that panel. */
module Modals {

  /** Body overflow while a modal is open, and after one closes. */
  const Locked := "hidden"
  const Restored := "auto"

  class ModalController {
    /** Ids of the panels on the page, the elements `getElementById` finds. */
    const ids: set<string>
    /** Panels carrying the "active" class. */
    var active: set<string>
    /** `document.body.style.overflow`. */
    var overflow: string

    ghost predicate Valid()
      reads this
    {
      active <= ids
    }

    constructor (ids: set<string>, active: set<string>, overflow: string)
      requires active <= ids
      ensures Valid()
      ensures this.ids == ids && this.active == active && this.overflow == overflow
    {
      this.ids := ids;
      this.active := active;
      this.overflow := overflow;
    }

    /** `showModal(id)`: an unknown id changes nothing. */
    method Open(id: string)
      requires Valid()
      modifies this
      ensures Valid()
      ensures active == if id in ids then old(active) + {id} else old(active)
      ensures overflow == if id in ids then Locked else old(overflow)
    {
      if id in ids {
        active := active + {id};
        overflow := Locked;
      }
    }

    /** `closeModal(id)`: an unknown id changes nothing, and closing a closed
        panel only restores scrolling again. Scrolling is restored even when
        another panel is still open. */
    method Close(id: string)
      requires Valid()
      modifies this
      ensures Valid()
      ensures active == old(active) - {id}
      ensures overflow == if id in ids then Restored else old(overflow)
    {
      if id in ids {
        active := active - {id};
        overflow := Restored;
      }
    }

    /** The page's `keydown` listener: Escape closes every active panel, one
        `closeModal` call each; any other key does nothing. */
    method KeyDown(key: string)
      requires Valid()
      modifies this
      ensures Valid()
      ensures active == if key == "Escape" then {} else old(active)
      ensures overflow == if key == "Escape" && old(active) != {} then Restored else old(overflow)
    {
      if key == "Escape" {
        var open := active;
        while open != {}
          invariant Valid()
          invariant active == open
          invariant overflow == if open == old(active) then old(overflow) else Restored
          decreases open
        {
          var m :| m in open;
          Close(m);
          open := open - {m};
        }
      }
    }

    /** A click on panel `id`: only a click on the backdrop itself, not on
        the panel's content, closes it. */
    method Click(id: string, onBackdrop: bool)
      requires Valid()
      modifies this
      ensures Valid()
      ensures active == if onBackdrop then old(active) - {id} else old(active)
      ensures overflow == if onBackdrop && id in ids then Restored else old(overflow)
    {
      if onBackdrop {
        Close(id);
      }
    }
  }
}
