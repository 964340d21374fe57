/**
 * The engine's input layer: the keyboard and mouse tables updated from window
 * events, the edge queries over them, and the manager that feeds both and
 * latches the control copies once per frame.
 */
module Input {
  import E = InputEvents

  class Keyboard {
    /** `keys`: which keys are down now. */
    const keys: array<bool>
    /** `keys_ctrl`: which keys were down at the last update. */
    const keysCtrl: array<bool>

    ghost predicate Valid()
      reads this
    {
      keys.Length == E.KeyCount && keysCtrl.Length == E.KeyCount && keys != keysCtrl
    }

    /** The tables as a value. */
    function State(): E.Switches
      reads this, keys, keysCtrl
    {
      E.Switches(keys[..], keysCtrl[..])
    }

    constructor ()
      ensures Valid() && fresh(keys) && fresh(keysCtrl)
      ensures State() == E.AllUp(E.KeyCount)
    {
      keys := new bool[E.KeyCount](_ => false);
      keysCtrl := new bool[E.KeyCount](_ => false);
    }

    method Propagate(e: E.Event)
      requires Valid()
      modifies keys
      ensures State() == E.Step(E.KeyBank, old(State()), e)
    {
      match e
      case KeyPressed(code) =>
        if code != E.Unknown {
          keys[code] := true;
        }
      case KeyReleased(code) =>
        if code != E.Unknown {
          keys[code] := false;
        }
      case _ =>
    }

    function KeyDown(key: E.Key): (r: bool)
      requires Valid()
      reads this, keys, keysCtrl
      ensures r <==> State().Down(key)
    {
      keys[key]
    }

    function KeyUp(key: E.Key): (r: bool)
      requires Valid()
      reads this, keys, keysCtrl
      ensures r <==> !KeyDown(key)
      ensures r <==> State().Up(key)
    {
      !keys[key]
    }

    function KeyPressed(key: E.Key): (r: bool)
      requires Valid()
      reads this, keys, keysCtrl
      ensures r <==> State().Pressed(key)
      ensures r ==> KeyDown(key)
    {
      keys[key] && !keysCtrl[key]
    }

    function KeyReleased(key: E.Key): (r: bool)
      requires Valid()
      reads this, keys, keysCtrl
      ensures r <==> State().Released(key)
      ensures r ==> KeyUp(key) && !KeyPressed(key)
    {
      !keys[key] && keysCtrl[key]
    }
  }

  class Mouse {
    var x: E.I32
    var y: E.I32
    const buttons: array<bool>
    const buttonsCtrl: array<bool>

    ghost predicate Valid()
      reads this
    {
      buttons.Length == E.ButtonCount && buttonsCtrl.Length == E.ButtonCount && buttons != buttonsCtrl
    }

    function Buttons(): E.Switches
      reads this, buttons, buttonsCtrl
    {
      E.Switches(buttons[..], buttonsCtrl[..])
    }

    constructor ()
      ensures Valid() && fresh(buttons) && fresh(buttonsCtrl)
      ensures Buttons() == E.AllUp(E.ButtonCount) && x == 0 && y == 0
    {
      x, y := 0, 0;
      buttons := new bool[E.ButtonCount](_ => false);
      buttonsCtrl := new bool[E.ButtonCount](_ => false);
    }

    method Propagate(e: E.Event)
      requires Valid()
      modifies this, buttons
      ensures Buttons() == E.Step(E.ButtonBank, old(Buttons()), e)
      ensures (x, y) == E.Position(old((x, y)), e)
    {
      match e
      case MouseButtonPressed(button) => buttons[button] := true;
      case MouseButtonReleased(button) => buttons[button] := false;
      case MouseMoved(nx, ny) =>
        x := nx;
        y := ny;
      case _ =>
    }

    /** `x()`, `y()` and `position()` read the fields. */
    function Position(): (E.I32, E.I32)
      reads this
    {
      (x, y)
    }

    function ButtonDown(button: E.Button): (r: bool)
      requires Valid()
      reads this, buttons, buttonsCtrl
      ensures r <==> Buttons().Down(button)
    {
      buttons[button]
    }

    function ButtonUp(button: E.Button): (r: bool)
      requires Valid()
      reads this, buttons, buttonsCtrl
      ensures r <==> !ButtonDown(button)
      ensures r <==> Buttons().Up(button)
    {
      !buttons[button]
    }

    function ButtonPressed(button: E.Button): (r: bool)
      requires Valid()
      reads this, buttons, buttonsCtrl
      ensures r <==> Buttons().Pressed(button)
      ensures r ==> ButtonDown(button)
    {
      buttons[button] && !buttonsCtrl[button]
    }

    function ButtonReleased(button: E.Button): (r: bool)
      requires Valid()
      reads this, buttons, buttonsCtrl
      ensures r <==> Buttons().Released(button)
      ensures r ==> ButtonUp(button) && !ButtonPressed(button)
    {
      !buttons[button] && buttonsCtrl[button]
    }
  }

  class InputManager {
    const keyboard: Keyboard
    const mouse: Mouse

    ghost predicate Valid()
      reads this, keyboard, mouse
    {
      keyboard.Valid() && mouse.Valid()
    }

    constructor ()
      ensures Valid() && fresh(keyboard) && fresh(mouse)
      ensures fresh(keyboard.keys) && fresh(keyboard.keysCtrl) && fresh(mouse.buttons) && fresh(mouse.buttonsCtrl)
      ensures keyboard.State() == E.AllUp(E.KeyCount) && mouse.Buttons() == E.AllUp(E.ButtonCount)
      ensures mouse.Position() == (0, 0)
    {
      keyboard := new Keyboard();
      mouse := new Mouse();
    }

    /** The same event goes to the keyboard and to the mouse. */
    method Propagate(e: E.Event)
      requires Valid()
      modifies keyboard.keys, mouse, mouse.buttons
      ensures Valid()
      ensures keyboard.State() == E.Step(E.KeyBank, old(keyboard.State()), e)
      ensures mouse.Buttons() == E.Step(E.ButtonBank, old(mouse.Buttons()), e)
      ensures mouse.Position() == E.Position(old(mouse.Position()), e)
    {
      keyboard.Propagate(e);
      mouse.Propagate(e);
    }

    /** Latches both control copies; afterwards no key or button shows an edge. */
    method Update()
      requires Valid()
      modifies keyboard.keysCtrl, mouse.buttonsCtrl
      ensures Valid()
      ensures keyboard.State() == old(keyboard.State()).Latch()
      ensures mouse.Buttons() == old(mouse.Buttons()).Latch()
      ensures forall k: E.Key :: !KeyPressed(k) && !KeyReleased(k)
      ensures forall b: E.Button :: !ButtonPressed(b) && !ButtonReleased(b)
    {
      forall i | 0 <= i < E.KeyCount {
        keyboard.keysCtrl[i] := keyboard.keys[i];
      }
      forall i | 0 <= i < E.ButtonCount {
        mouse.buttonsCtrl[i] := mouse.buttons[i];
      }
      assert keyboard.keysCtrl[..] == keyboard.keys[..];
      assert mouse.buttonsCtrl[..] == mouse.buttons[..];
    }

    function KeyDown(key: E.Key): (r: bool)
      requires Valid()
      reads this, keyboard, mouse, keyboard.keys, keyboard.keysCtrl
      ensures r <==> keyboard.State().Down(key)
    {
      keyboard.KeyDown(key)
    }

    function KeyUp(key: E.Key): (r: bool)
      requires Valid()
      reads this, keyboard, mouse, keyboard.keys, keyboard.keysCtrl
      ensures r <==> !KeyDown(key)
    {
      keyboard.KeyUp(key)
    }

    function KeyPressed(key: E.Key): (r: bool)
      requires Valid()
      reads this, keyboard, mouse, keyboard.keys, keyboard.keysCtrl
      ensures r <==> keyboard.State().Pressed(key)
    {
      keyboard.KeyPressed(key)
    }

    function KeyReleased(key: E.Key): (r: bool)
      requires Valid()
      reads this, keyboard, mouse, keyboard.keys, keyboard.keysCtrl
      ensures r <==> keyboard.State().Released(key)
    {
      keyboard.KeyReleased(key)
    }

    function ButtonDown(button: E.Button): (r: bool)
      requires Valid()
      reads this, keyboard, mouse, mouse.buttons, mouse.buttonsCtrl
      ensures r <==> mouse.Buttons().Down(button)
    {
      mouse.ButtonDown(button)
    }

    function ButtonUp(button: E.Button): (r: bool)
      requires Valid()
      reads this, keyboard, mouse, mouse.buttons, mouse.buttonsCtrl
      ensures r <==> !ButtonDown(button)
    {
      mouse.ButtonUp(button)
    }

    function ButtonPressed(button: E.Button): (r: bool)
      requires Valid()
      reads this, keyboard, mouse, mouse.buttons, mouse.buttonsCtrl
      ensures r <==> mouse.Buttons().Pressed(button)
    {
      mouse.ButtonPressed(button)
    }

    function ButtonReleased(button: E.Button): (r: bool)
      requires Valid()
      reads this, keyboard, mouse, mouse.buttons, mouse.buttonsCtrl
      ensures r <==> mouse.Buttons().Released(button)
    {
      mouse.ButtonReleased(button)
    }
  }
}
