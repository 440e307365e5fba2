/** The parts of the page's elements that the scripts read and write. */
module Dom {
  import opened Wrappers

  /** An element: its `id`, its `data-*` attributes (the `dataset`) and its
      class list, which is the one thing the scripts change on it. */
  class Element {
    const id: string
    const data: map<string, string>
    var classes: set<string>

    constructor (id: string, data: map<string, string>, classes: set<string>)
      ensures this.id == id && this.data == data && this.classes == classes
    {
      this.id := id;
      this.data := data;
      this.classes := classes;
    }
  }

  /** An `<input>` whose `type` attribute the password toggles flip, with the
      eye icon of its toggle button when there is one. The two scripts find
      that icon differently: the shared script takes the first `button i`
      under the input's parent, the login page the first `i` inside the
      input's next sibling. `icon` is whichever element the script at hand
      finds. */
  class Input {
    const id: string
    var inputType: string
    const icon: Element?

    constructor (id: string, inputType: string, icon: Element?)
      ensures this.id == id && this.inputType == inputType && this.icon == icon
    {
      this.id := id;
      this.inputType := inputType;
      this.icon := icon;
    }
  }

  /** An element whose text content a script rewrites. */
  class TextNode {
    var text: string

    constructor (text: string)
      ensures this.text == text
    {
      this.text := text;
    }
  }

  /** `getElementById`: the first element, in document order, with that id. */
  function FindById(elements: seq<Element>, id: string): (r: Option<nat>)
    ensures r.Some? ==> r.value < |elements| && elements[r.value].id == id
    ensures r.Some? ==> forall k :: 0 <= k < r.value ==> elements[k].id != id
    ensures r.None? ==> forall k :: 0 <= k < |elements| ==> elements[k].id != id
  {
    if elements == [] then None
    else if elements[0].id == id then Some(0)
    else match FindById(elements[1..], id)
      case None => None
      case Some(k) => Some(k + 1)
  }
}
